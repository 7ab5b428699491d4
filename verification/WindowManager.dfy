/** The window manager: the screen framebuffer, the windows' backing stores and the menu
    overlay, kept coherent by partial copies. */
module WindowManager {
  import opened Geometry
  import opened RasterSpec
  import opened Stacking
  import opened Desk
  import opened WindowTable
  import opened Coalesce
  import opened Runs
  import opened Menus
  import Surf = Surface

  /** What a piece of chrome looks like depends on this much of the state. */
  datatype Part =
    | Face
    | Border
    | Title(text: string, focused: bool)
    | Bar(elev: int, grab: BarGrab, held: bool)

  // The row of item i of a menu, and the place of its pin.
  function ItemBox(g: Geo, m: Menu, i: int): Rect {
    Rect(m.x + MENU_BORDER, m.y + MENU_TOP + i * MENU_ITEM_H, g.menuW - 2 * MENU_BORDER, MENU_ITEM_H)
  }

  function PinBox(m: Menu): Rect {
    Rect(m.x + MENU_PIN_X, m.y + MENU_BORDER + MENU_PIN_Y, MENU_PIN_W, MENU_PIN_H + 1)
  }

  /** Two menus in the same place look the same at (x, y): its row is highlighted in both or
      neither, and both or neither are pinned if the pin is there. */
  ghost predicate SameLook(g: Geo, m: Menu, n: Menu, x: int, y: int) {
    && m.x == n.x && m.y == n.y && (PinBox(m).Has(x, y) ==> m.pinned == n.pinned)
    && forall i :: 0 <= i < g.items && ItemBox(g, m, i).Has(x, y) ==> (i in m.lit <==> i in n.lit)
  }

  /** A window-sized picture, by column. */
  type Picture = seq<seq<Color>>

  class WindowManager {
    const g: Geo
    const screen: array2<Color>
    const overlay: array2<Color>
    const surf: seq<Surf.Surface>
    const windowZ: array<int>
    // The windows' framebuffers.
    ghost const stores: set<object>
    // What chrome and menu look like.
    const ink: imap<Part, Picture>
    const plate: imap<Menu, Picture>

    var zCount: int
    var types: seq<int>
    var pos: seq<Point>
    var focused: int
    var kbd: seq<int>
    var ptr: seq<int>
    var elev: seq<int>
    var content: seq<int>
    var drag: Drag
    var bar: BarGrab
    var menu: Menu
    var menuDrag: Drag
    var sent: seq<Sent>
    var titles: seq<string>
    ghost var smears: seq<Smear>

    // There is a picture of every piece of chrome and of every menu; menus differ where they
    // have to.
    static ghost predicate Pictured(g: Geo, ink: imap<Part, Picture>, plate: imap<Menu, Picture>) {
      && (forall p: Part :: p in ink && |ink[p]| == g.UW() && forall a :: 0 <= a < g.UW() ==> |ink[p][a]| == g.UH())
      && (forall m: Menu :: m in plate && |plate[m]| == g.fbW && forall x :: 0 <= x < g.fbW ==> |plate[m][x]| == g.fbH)
      && (forall m: Menu, n: Menu, x: int, y: int {:trigger SameLook(g, m, n, x, y)} ::
            g.OnScreen(x, y) && SameLook(g, m, n, x, y) ==> plate[m][x][y] == plate[n][x][y])
    }

    // The objects fit together; none is shared.
    ghost predicate Wired() {
      && g.Ok() && |surf| == g.slots && windowZ.Length == g.slots
      && screen.Length0 == overlay.Length0 == g.fbW && screen.Length1 == overlay.Length1 == g.fbH
      && screen != overlay
      && Pictured(g, ink, plate)
      && (forall i :: 0 <= i < |surf| ==>
            surf[i].Wired() && surf[i].g == g && surf[i].fb != screen && surf[i].fb != overlay
            && surf[i].scratch as object != windowZ as object)
      && (forall i, j :: 0 <= i < j < |surf| ==> surf[i] != surf[j] && surf[i].fb != surf[j].fb)
      && this !in stores && windowZ !in stores && screen !in stores && overlay !in stores
      && (forall i :: 0 <= i < |surf| ==>
            surf[i].fb in stores && surf[i] as object !in stores && surf[i].scratch as object !in stores)
    }

    ghost predicate Sized()
      reads this`zCount, this`types, this`pos, this`titles
    {
      Wired() && 0 <= zCount <= g.slots && |types| == |pos| == |titles| == g.slots
    }

    // Windows and menu lie on the screen.
    ghost predicate Placed()
      reads this`zCount, this`types, this`pos, this`titles, this`menu
    {
      Sized() && (forall i :: 0 <= i < g.slots ==> Fits(pos[i], g.UW(), g.UH(), g))
      && Fits(Point(menu.x, menu.y), g.menuW, g.MenuH(), g)
    }

    function Z(): seq<int>
      requires 0 <= zCount <= windowZ.Length
      reads this`zCount, windowZ
    {
      windowZ[..zCount]
    }

    function Now(): Desk
      requires 0 <= zCount <= windowZ.Length
      reads this, windowZ
    {
      Desk(types, pos, Z(), focused, kbd, ptr, elev, content, drag, bar, menu, menuDrag, sent)
    }

    ghost predicate Valid()
      reads this, windowZ, surf
    {
      Sized() && TableOk(Now(), g) && forall i :: 0 <= i < |surf| ==> surf[i].Valid()
    }

    function Top(x: int, y: int): (t: int)
      requires Sized()
      reads this`zCount, this`types, this`pos, this`titles, windowZ
      ensures t != 0 ==> 1 <= t <= g.slots && Rect(pos[t - 1].x, pos[t - 1].y, g.UW(), g.UH()).Has(x, y)
    {
      TopAt(Z(), pos, g, x, y)
    }

    predicate InMenu(x: int, y: int)
      reads this`menu
    {
      menu.active && Rect(menu.x, menu.y, g.menuW, g.MenuH()).Has(x, y)
    }

    // What the screen should show: the menu, else the topmost window, else the workspace.
    ghost function Visible(x: int, y: int): Color
      requires Sized() && g.OnScreen(x, y)
      reads this`zCount, this`types, this`pos, this`titles, this`menu, windowZ, overlay, stores
    {
      if InMenu(x, y) then overlay[x, y]
      else
        var t := Top(x, y);
        if t == 0 then WORKSPACE else Face(t, x, y)
    }

    ghost predicate Right(x: int, y: int)
      requires Sized() && g.OnScreen(x, y)
      reads this`zCount, this`types, this`pos, this`titles, this`menu, windowZ, overlay, stores, screen
    {
      screen[x, y] == Visible(x, y)
    }

    // ---------- coherence ----------

    // A pixel of the top window that has been painted but not copied yet.
    ghost predicate Unflushed(x: int, y: int)
      requires Sized()
      reads this`zCount, this`types, this`pos, this`titles, windowZ, surf
    {
      var t := Top(x, y);
      t != 0 && surf[t - 1].Dirty(x - pos[t - 1].x, y - pos[t - 1].y)
    }

    function DragRect(): Rect
      reads this`drag
    {
      Rect(drag.out.x, drag.out.y, g.UW(), g.UH())
    }

    function MenuDragRect(): Rect
      reads this`menuDrag
    {
      Rect(menuDrag.out.x, menuDrag.out.y, g.menuW, g.MenuH())
    }

    // On the outline of a drag, or in a smear.
    ghost predicate Marked(x: int, y: int)
      reads this`drag, this`menuDrag, this`smears
    {
      || (drag.active && OnOutline(DragRect(), x, y))
      || (menuDrag.active && OnOutline(MenuDragRect(), x, y))
      || (exists s :: s in smears && s.Has(x, y))
    }

    // Pixels that are allowed to differ from what should be visible.
    ghost predicate Excused(x: int, y: int)
      requires Sized()
      reads this, windowZ, surf
    {
      Marked(x, y) || Unflushed(x, y)
    }

    ghost predicate Ok(x: int, y: int)
      requires Sized() && g.OnScreen(x, y)
      reads this, windowZ, overlay, stores, screen, surf
    {
      Right(x, y) || Excused(x, y)
    }

    // The pixels that are as they should be, or excused.
    ghost function Fine(): iset<Point>
      requires Sized()
      reads this, windowZ, overlay, stores, screen, surf
    {
      iset p: Point | g.OnScreen(p.x, p.y) && Ok(p.x, p.y)
    }

    // Every screen pixel is right, but for outlines, forgotten smears and pending paint.
    ghost predicate Coherent()
      requires Sized()
      reads this, windowZ, overlay, stores, screen, surf
    {
      forall p: Point :: g.OnScreen(p.x, p.y) ==> p in Fine()
    }

    // Nothing that Fine depends on has changed.
    twostate predicate SamePicture()
      requires old(Sized()) && Sized()
      reads this, windowZ, overlay, stores, screen, surf
    {
      && Z() == old(Z()) && pos == old(pos) && menu == old(menu)
      && drag == old(drag) && menuDrag == old(menuDrag) && smears == old(smears)
      && unchanged(screen) && unchanged(overlay)
      && forall i :: 0 <= i < |surf| ==> unchanged(surf[i]) && unchanged(surf[i].fb)
    }

    twostate lemma SameFine()
      requires old(Sized()) && Sized() && SamePicture()
      ensures Fine() == old(Fine())
    {
      forall p: Point | g.OnScreen(p.x, p.y)
        ensures Ok(p.x, p.y) == old(Ok(p.x, p.y))
      {
        assert Visible(p.x, p.y) == old(Visible(p.x, p.y));
        assert Excused(p.x, p.y) == old(Excused(p.x, p.y));
      }
    }

    // With the same top window, what is visible changes only with the buffers.
    twostate lemma PixelKept(new x: int, new y: int)
      requires old(Sized()) && Sized() && g.OnScreen(x, y)
      requires old(Top(x, y)) == Top(x, y) && menu == old(menu) && unchanged(overlay)
      requires Top(x, y) != 0 ==> pos[Top(x, y) - 1] == old(pos)[Top(x, y) - 1]
      requires forall i :: 0 <= i < |surf| ==> unchanged(surf[i]) && unchanged(surf[i].fb)
      ensures Visible(x, y) == old(Visible(x, y)) && Unflushed(x, y) == old(Unflushed(x, y))
    {
      var t := Top(x, y);
      if t != 0 {
        assert unchanged(surf[t - 1]) && unchanged(surf[t - 1].fb);
      }
    }

    // Outside r the same window is on top, where it was.
    twostate predicate SameTops(new r: Rect)
      requires old(Sized()) && Sized()
      reads this, windowZ
    {
      forall x, y :: g.OnScreen(x, y) && !r.Has(x, y) ==>
        Top(x, y) == old(Top(x, y)) && (Top(x, y) != 0 ==> pos[Top(x, y) - 1] == old(pos)[Top(x, y) - 1])
    }

    // A change to the stack that changes the top window only inside r.
    twostate lemma StackChanged(new r: Rect)
      requires old(Sized()) && Sized() && menu == old(menu) && unchanged(overlay) && unchanged(screen)
      requires drag == old(drag) && menuDrag == old(menuDrag) && smears == old(smears)
      requires forall i :: 0 <= i < |surf| ==> unchanged(surf[i]) && unchanged(surf[i].fb)
      requires SameTops(r)
      ensures old(Fine()) <= Fine() + Area(r)
    {
      forall p: Point | p in old(Fine()) && p !in Area(r)
        ensures p in Fine()
      {
        PixelKept(p.x, p.y);
      }
    }

    // On-screen pixels of a screen rectangle.
    ghost function Area(r: Rect): iset<Point> {
      iset p: Point | g.OnScreen(p.x, p.y) && r.Has(p.x, p.y)
    }

    // Those of them where there is something above the workspace.
    ghost function Covered(r: Rect): iset<Point>
      requires Sized()
      reads this`zCount, this`types, this`pos, this`titles, this`menu, windowZ
    {
      iset p: Point | g.OnScreen(p.x, p.y) && r.Has(p.x, p.y) && (InMenu(p.x, p.y) || Top(p.x, p.y) != 0)
    }

    function Footprint(w: int): Rect
      requires Sized() && 1 <= w <= g.slots
      reads this`zCount, this`types, this`pos, this`titles
    {
      Rect(pos[w - 1].x, pos[w - 1].y, g.UW(), g.UH())
    }

    // The screen rectangle over a rectangle of window w.
    function OnWindow(w: int, area: Rect): Rect
      requires Sized() && 1 <= w <= g.slots
      reads this`zCount, this`types, this`pos, this`titles
    {
      Rect(pos[w - 1].x + area.x, pos[w - 1].y + area.y, area.w, area.h)
    }

    // Replacing screen pixels by what should be visible keeps fine pixels fine.
    twostate lemma Repaired(new r: iset<Point>)
      requires old(Sized()) && Sized()
      requires unchanged(this) && unchanged(windowZ) && unchanged(overlay)
      requires forall i :: 0 <= i < |surf| ==> unchanged(surf[i]) && unchanged(surf[i].fb)
      requires forall p: Point :: g.OnScreen(p.x, p.y) ==>
        screen[p.x, p.y] == if p in r then Visible(p.x, p.y) else old(screen[p.x, p.y])
      ensures old(Fine()) <= Fine()
      ensures forall p: Point :: g.OnScreen(p.x, p.y) && p in r ==> p in Fine()
    {
      forall p: Point | p in old(Fine())
        ensures p in Fine()
      {
        assert Visible(p.x, p.y) == old(Visible(p.x, p.y));
        assert Excused(p.x, p.y) == old(Excused(p.x, p.y));
      }
    }

    // ---------- start-up ----------

    // The empty desktop: workspace colour everywhere, no window, no menu.
    constructor (g: Geo, ink: imap<Part, Picture>, plate: imap<Menu, Picture>,
                 beyond: nat -> Color, glyph: (int, int, int) -> Color)
      requires g.Ok() && Pictured(g, ink, plate)
      ensures this.g == g && this.ink == ink && this.plate == plate && Valid() && Titled() && AllClean() && Now() == Initial(g) && smears == [] && Inked()
      ensures fresh(screen) && fresh(overlay) && fresh(windowZ)
      ensures fresh(stores) && forall i :: 0 <= i < |surf| ==> fresh(surf[i]) && fresh(surf[i].fb)
      ensures Coherent() && forall x, y :: g.OnScreen(x, y) ==> Right(x, y)
    {
      this.g, this.ink, this.plate := g, ink, plate;
      screen := new Color[g.fbW, g.fbH]((_, _) => WORKSPACE);
      overlay := new Color[g.fbW, g.fbH]((_, _) => 0);
      windowZ := new int[g.slots](_ => 0);
      var d := Initial(g);
      zCount, focused, titles, smears := 0, 0, seq(g.slots, _ => ""), [];
      types, pos, kbd, ptr, elev, content := d.types, d.pos, d.kbd, d.ptr, d.elev, d.content;
      drag, bar, menu, menuDrag, sent := d.drag, d.bar, d.menu, d.menuDrag, d.sent;
      var made;
      ghost var fbs;
      made, fbs := MakeSurfaces(g, beyond, glyph);
      surf, stores := made, fbs;
      new;
      assert Z() == [];
      AllRight();
    }

    // With no window and no menu, a screen of workspace colour is right.
    lemma AllRight()
      requires Sized() && Now() == Initial(g)
      requires forall x, y :: g.OnScreen(x, y) ==> screen[x, y] == WORKSPACE
      ensures Titled() && Coherent() && forall x, y :: g.OnScreen(x, y) ==> Right(x, y)
    {
      assert Z() == [];
    }

    static method MakeSurfaces(g: Geo, beyond: nat -> Color, glyph: (int, int, int) -> Color)
      returns (s: seq<Surf.Surface>, ghost fbs: set<object>)
      requires g.Ok()
      ensures |s| == g.slots && fresh(fbs)
      ensures forall i :: 0 <= i < |s| ==>
        s[i].Valid() && s[i].Clean() && s[i].g == g && fresh(s[i]) && fresh(s[i].fb) && fresh(s[i].scratch)
      ensures forall i, j :: 0 <= i < j < |s| ==> s[i] != s[j] && s[i].fb != s[j].fb
      ensures forall i :: 0 <= i < |s| ==> s[i].fb in fbs && s[i] as object !in fbs && s[i].scratch as object !in fbs
    {
      s, fbs := [], {};
      while |s| < g.slots
        invariant |s| <= g.slots && fresh(fbs)
        invariant forall i :: 0 <= i < |s| ==>
          s[i].Valid() && s[i].Clean() && s[i].g == g && fresh(s[i]) && fresh(s[i].fb) && fresh(s[i].scratch)
        invariant forall i, j :: 0 <= i < j < |s| ==> s[i] != s[j] && s[i].fb != s[j].fb
        invariant forall i :: 0 <= i < |s| ==> s[i].fb in fbs && s[i] as object !in fbs && s[i].scratch as object !in fbs
      {
        var one := new Surf.Surface(g, beyond, glyph);
        s, fbs := s + [one], fbs + {one.fb};
      }
    }

    // ---------- compositing ----------

    // The pixel that window t shows at screen pixel (x, y).
    function Face(t: int, x: int, y: int): Color
      requires Sized() && 1 <= t <= g.slots && Rect(pos[t - 1].x, pos[t - 1].y, g.UW(), g.UH()).Has(x, y)
      reads this`zCount, this`types, this`pos, this`titles, surf[t - 1].fb
    {
      surf[t - 1].fb[x - pos[t - 1].x, y - pos[t - 1].y]
    }

    // Copy the part of window t under screen rectangle r onto the screen.
    method BlitWindow(t: int, r: Rect)
      requires Sized() && 1 <= t <= g.slots && r.Inside(g.fbW, g.fbH)
      requires Rect(r.x - pos[t - 1].x, r.y - pos[t - 1].y, r.w, r.h).Inside(g.UW(), g.UH())
      modifies screen
      ensures forall x, y :: g.OnScreen(x, y) ==>
        screen[x, y] == if r.Has(x, y) then Face(t, x, y) else old(screen[x, y])
    {
      var fb, px, py := surf[t - 1].fb, pos[t - 1].x, pos[t - 1].y;
      forall x, y | r.x <= x < r.x + r.w && r.y <= y < r.y + r.h {
        screen[x, y] := fb[x - px, y - py];
      }
    }

    // Composite a screen rectangle from the stack: the top window alone when it covers the
    // whole rectangle, else every window's part of it from the bottom up.
    method CompositeStack(r: Rect)
      requires Sized() && r.Inside(g.fbW, g.fbH)
      modifies screen
      ensures forall x, y :: g.OnScreen(x, y) ==>
        screen[x, y] == if r.Has(x, y) && Top(x, y) != 0 then Face(Top(x, y), x, y) else old(screen[x, y])
    {
      if zCount > 0 {
        var top := windowZ[zCount - 1];
        if 1 <= top <= g.slots {
          var tx, ty := pos[top - 1].x, pos[top - 1].y;
          if r.x >= tx && r.y >= ty && r.x + r.w <= tx + g.UW() && r.y + r.h <= ty + g.UH() {
            BlitWindow(top, r);
            assert forall x, y :: r.Has(x, y) ==> Top(x, y) == top;
            return;
          }
        }
      }
      WalkStack(r);
    }

    method WalkStack(r: Rect)
      requires Sized() && r.Inside(g.fbW, g.fbH)
      modifies screen
      ensures forall x, y :: g.OnScreen(x, y) ==>
        screen[x, y] == if r.Has(x, y) && Top(x, y) != 0 then Face(Top(x, y), x, y) else old(screen[x, y])
    {
      var z := 0;
      while z < zCount
        invariant 0 <= z <= zCount
        invariant forall x, y :: g.OnScreen(x, y) ==>
          var t := TopAt(windowZ[..z], pos, g, x, y);
          screen[x, y] == if r.Has(x, y) && t != 0 then Face(t, x, y) else old(screen[x, y])
      {
        var t := windowZ[z];
        var part := Rect(0, 0, 0, 0);
        if 1 <= t <= g.slots {
          part := Meet(r, Rect(pos[t - 1].x, pos[t - 1].y, g.UW(), g.UH()));
          if part.w > 0 && part.h > 0 {
            BlitWindow(t, part);
          }
        }
        assert windowZ[..z + 1] == windowZ[..z] + [t];
        forall x, y | g.OnScreen(x, y)
          ensures TopAt(windowZ[..z + 1], pos, g, x, y) ==
            if Covers(pos, g, t, x, y) then t else TopAt(windowZ[..z], pos, g, x, y)
          ensures part.Has(x, y) <==> r.Has(x, y) && Covers(pos, g, t, x, y)
        {
          PushTop(windowZ[..z], t, pos, g, x, y);
        }
        z := z + 1;
      }
    }

    // Copy the menu's part of a screen rectangle from the overlay.
    method CompositeMenuOverlay(r: Rect)
      requires Placed()
      modifies screen
      ensures forall x, y :: g.OnScreen(x, y) ==>
        screen[x, y] == if r.Has(x, y) && Rect(menu.x, menu.y, g.menuW, g.MenuH()).Has(x, y)
                        then overlay[x, y] else old(screen[x, y])
    {
      var part := Meet(r, Rect(menu.x, menu.y, g.menuW, g.MenuH()));
      if part.w <= 0 || part.h <= 0 { return; }
      forall x, y | part.x <= x < part.x + part.w && part.y <= y < part.y + part.h {
        screen[x, y] := overlay[x, y];
      }
    }

    // The stack, then the menu above it.
    method CompositeScreenRect(r: Rect)
      requires Placed() && r.Inside(g.fbW, g.fbH)
      modifies screen
      ensures forall x, y :: g.OnScreen(x, y) ==>
        screen[x, y] == if r.Has(x, y) && (InMenu(x, y) || Top(x, y) != 0) then Visible(x, y) else old(screen[x, y])
      ensures old(Fine()) <= Fine() && Covered(r) <= Fine()
    {
      CompositeStack(r);
      if menu.active { CompositeMenuOverlay(r); }
      Repaired(Covered(r));
    }

    method FillScreen(r: Rect, c: Color)
      requires Sized() && r.Inside(g.fbW, g.fbH)
      modifies screen
      ensures forall x, y :: g.OnScreen(x, y) ==> screen[x, y] == if r.Has(x, y) then c else old(screen[x, y])
    {
      forall x, y | r.x <= x < r.x + r.w && r.y <= y < r.y + r.h {
        screen[x, y] := c;
      }
    }

    // Clear a screen rectangle to the workspace and composite it again.
    method Recompose(r: Rect)
      requires Placed() && r.Inside(g.fbW, g.fbH)
      modifies screen
      ensures forall x, y :: g.OnScreen(x, y) ==>
        screen[x, y] == if r.Has(x, y) then Visible(x, y) else old(screen[x, y])
      ensures old(Fine()) + Area(r) <= Fine()
    {
      FillScreen(r, WORKSPACE);
      CompositeScreenRect(r);
      Repaired(Area(r));
    }

    // ---------- chrome ----------

    function TitlePart(w: int): Part
      requires 1 <= w <= |titles|
      reads this`titles, this`focused
    {
      Title(titles[w - 1], w == focused)
    }

    // The title bar of window w shows its title, and whether it is focused.
    ghost predicate TitleShown(w: int)
      requires Sized() && 1 <= w <= g.slots
      reads this`zCount, this`types, this`pos, this`titles, this`focused, surf[w - 1].fb
    {
      forall a, b :: g.TitleRect().Has(a, b) ==> surf[w - 1].fb[a, b] == ink[TitlePart(w)][a][b]
    }

    ghost predicate Titled()
      requires Sized()
      reads this`zCount, this`types, this`pos, this`titles, this`focused, stores
    {
      forall w :: 1 <= w <= g.slots && types[w - 1] != FREE ==> TitleShown(w)
    }

    // Copy a rectangle of window w's footprint to the screen.
    method CompositeWindowRegion(w: int, area: Rect)
      requires Placed() && 1 <= w <= g.slots && area.Inside(g.UW(), g.UH())
      modifies screen
      ensures old(Fine() + Covered(OnWindow(w, area))) <= Fine()
      ensures forall x, y :: g.OnScreen(x, y) && OnWindow(w, area).Has(x, y) && Top(x, y) != 0 ==> Right(x, y)
    {
      CompositeScreenRect(OnWindow(w, area));
    }

    // Painting in a rectangle of a window spoils at most the pixels where the window is on
    // top and the rectangle is.
    method StampPart(w: int, area: Rect, part: Part)
      requires Placed() && 1 <= w <= g.slots && area.Inside(g.UW(), g.UH())
      modifies surf[w - 1].fb
      ensures forall a, b :: g.Local(a, b) ==>
        surf[w - 1].fb[a, b] == if area.Has(a, b) then ink[part][a][b] else old(surf[w - 1].fb[a, b])
      ensures old(Fine()) <= Fine() + Covered(OnWindow(w, area))
    {
      surf[w - 1].StampPicture(area, ink[part]);
      Spoiled(w, area);
    }

    // A change to window w's store matters only where w is the top window.
    twostate lemma Spoiled(new w: int, new area: Rect)
      requires old(Sized()) && Sized() && 1 <= w <= g.slots
      requires unchanged(this) && unchanged(windowZ) && unchanged(overlay) && unchanged(screen)
      requires forall i :: 0 <= i < |surf| ==> surf[i].Bounds() == old(surf[i].Bounds())
      requires forall i :: 0 <= i < |surf| && i != w - 1 ==> unchanged(surf[i].fb)
      requires forall a, b :: g.Local(a, b) && !area.Has(a, b) ==> surf[w - 1].fb[a, b] == old(surf[w - 1].fb[a, b])
      ensures old(Fine()) <= Fine() + Covered(OnWindow(w, area))
    {
      forall p: Point | p in old(Fine()) && p !in Covered(OnWindow(w, area))
        ensures p in Fine()
      {
        var t := Top(p.x, p.y);
        if t != 0 {
          if t != w {
            assert unchanged(surf[t - 1].fb);
          } else {
            var a, b := p.x - pos[w - 1].x, p.y - pos[w - 1].y;
            assert g.Local(a, b) && !area.Has(a, b);
          }
          assert Face(t, p.x, p.y) == old(Face(t, p.x, p.y));
          assert surf[t - 1].Bounds() == old(surf[t - 1].Bounds());
        }
        assert Visible(p.x, p.y) == old(Visible(p.x, p.y));
        assert Unflushed(p.x, p.y) == old(Unflushed(p.x, p.y));
      }
    }

    // Paint a piece of window w's chrome and show it.
    method PaintPart(w: int, area: Rect, part: Part)
      requires Placed() && 1 <= w <= g.slots && area.Inside(g.UW(), g.UH())
      modifies screen, surf[w - 1].fb
      ensures forall a, b :: g.Local(a, b) ==>
        surf[w - 1].fb[a, b] == if area.Has(a, b) then ink[part][a][b] else old(surf[w - 1].fb[a, b])
      ensures old(Fine()) <= Fine()
    {
      StampPart(w, area, part);
      CompositeWindowRegion(w, area);
    }

    method PaintTitleBar(w: int)
      requires Placed() && 1 <= w <= g.slots
      modifies screen, surf[w - 1].fb
      ensures forall a, b :: g.Local(a, b) ==>
        surf[w - 1].fb[a, b] == if g.TitleRect().Has(a, b) then ink[TitlePart(w)][a][b] else old(surf[w - 1].fb[a, b])
      ensures old(Fine()) <= Fine() && TitleShown(w)
    {
      PaintPart(w, g.TitleRect(), TitlePart(w));
    }

    // A title bar nobody repaints stays right while its window keeps its title and focus.
    twostate lemma TitleKept(new v: int)
      requires old(Sized()) && Sized() && 1 <= v <= g.slots && old(TitleShown(v))
      requires titles[v - 1] == old(titles[v - 1]) && (v == focused <==> v == old(focused))
      requires unchanged(surf[v - 1].fb)
      ensures TitleShown(v)
    {
      assert TitlePart(v) == old(TitlePart(v));
    }

    // Repaint a live window's title bar.
    method RepaintTitleBar(w: int)
      requires Placed()
      modifies screen, stores
      ensures old(Fine()) <= Fine()
      ensures 1 <= w <= g.slots && types[w - 1] != FREE ==> TitleShown(w)
      ensures forall i :: 0 <= i < g.slots && (i + 1 != w || types[i] == FREE) ==> unchanged(surf[i].fb)
    {
      if w < 1 || w > g.slots { return; }
      if types[w - 1] == FREE { return; }
      PaintTitleBar(w);
    }

    // ---------- focus ----------

    // Move the focus, repainting both title bars.
    method SetFocus(w: int)
      requires Placed() && Titled()
      modifies this`focused, screen, stores
      ensures focused == w && Titled() && old(Fine()) <= Fine()
      ensures w == old(focused) ==> unchanged(screen)
    {
      if w == focused { return; }
      var before := focused;
      focused := w;
      SameFine();
      RepaintBoth(before, w);
      forall v | 1 <= v <= g.slots && types[v - 1] != FREE
        ensures TitleShown(v)
      {
        if v != w && v != before {
          TitleKept(v);
        }
      }
    }

    method RepaintBoth(v: int, w: int)
      requires Placed()
      modifies screen, stores
      ensures old(Fine()) <= Fine()
      ensures forall u :: 1 <= u <= g.slots && types[u - 1] != FREE && (u == v || u == w) ==> TitleShown(u)
      ensures forall i :: 0 <= i < g.slots && i + 1 != v && i + 1 != w ==> unchanged(surf[i].fb)
    {
      RepaintTitleBar(v);
      RepaintTitleBar(w);
    }

    // ---------- the z-stack ----------

    method FindZ(w: int) returns (found: int)
      requires 0 <= zCount <= windowZ.Length
      ensures if found < 0 then w !in Z() else found < zCount && windowZ[found] == w && w !in windowZ[..found]
    {
      found := -1;
      var i := 0;
      while i < zCount
        invariant 0 <= i <= zCount && found == -1 && w !in windowZ[..i]
      {
        if windowZ[i] == w {
          found := i;
          break;
        }
        i := i + 1;
      }
    }

    // Close the gap at index found; the last entry is left doubled.
    method ShiftDown(found: int)
      requires 0 <= found < zCount <= windowZ.Length
      modifies windowZ
      ensures windowZ[..zCount - 1] == old(windowZ[..found] + windowZ[found + 1..zCount])
    {
      var i := found;
      while i < zCount - 1
        invariant found <= i <= zCount - 1
        invariant forall k :: 0 <= k < windowZ.Length ==>
          windowZ[k] == if found <= k < i then old(windowZ[k + 1]) else old(windowZ[k])
      {
        windowZ[i] := windowZ[i + 1];
        i := i + 1;
      }
    }

    method ZRemove(w: int)
      requires 0 <= zCount <= windowZ.Length
      modifies windowZ, this`zCount
      ensures 0 <= zCount <= old(zCount) && Z() == Without(old(Z()), w)
    {
      var found := FindZ(w);
      if found < 0 { return; }
      Gap(w, found);
      ShiftDown(found);
      zCount := zCount - 1;
    }

    lemma Gap(w: int, found: int)
      requires 0 <= found < zCount <= windowZ.Length && windowZ[found] == w && w !in windowZ[..found]
      ensures Without(Z(), w) == windowZ[..found] + windowZ[found + 1..zCount]
    {
      assert Z()[..found] == windowZ[..found] && Z()[found + 1..] == windowZ[found + 1..zCount];
      WithoutAt(Z(), found);
    }

    method MoveToTop(w: int, found: int)
      requires 0 <= found < zCount <= windowZ.Length && windowZ[found] == w && w !in windowZ[..found]
      modifies windowZ
      ensures Z() == Without(old(Z()), w) + [w]
    {
      Gap(w, found);
      ShiftDown(found);
      PutTop(w);
    }

    method PutTop(w: int)
      requires 0 < zCount <= windowZ.Length
      modifies windowZ
      ensures Z() == old(windowZ[..zCount - 1]) + [w]
    {
      windowZ[zCount - 1] := w;
    }

    // Move the window at stack index found to the top and repaint its footprint.
    method Restack(w: int, found: int)
      requires Placed() && 1 <= w <= g.slots
      requires 0 <= found < zCount && windowZ[found] == w && w !in windowZ[..found]
      modifies windowZ, screen
      ensures Z() == Without(old(Z()), w) + [w]
      ensures old(Fine()) <= Fine()
    {
      MoveToTop(w, found);
      Restacked(w);
      TopCovers(w);
      CompositeScreenRect(Footprint(w));
    }

    ghost predicate OnTop(w: int)
      requires 0 <= zCount <= windowZ.Length
      reads this`zCount, windowZ
    {
      Z() != [] && Z()[|Z()| - 1] == w
    }

    // Put a window on top, give it the focus and repaint its footprint.
    method RaiseWindow(w: int)
      requires Valid() && Titled()
      modifies this`focused, windowZ, screen, stores
      ensures Valid() && Titled() && old(Fine()) <= Fine()
      ensures Now() == Raised(old(Now()), w)
      ensures w == old(focused) && old(OnTop(w)) ==> unchanged(screen)
    {
      RaisedOk(Now(), g, w);
      var found := FindZ(w);
      if found < 0 { return; }
      FoundTop(w, found);
      RaiseFound(w, found);
    }

    lemma FoundTop(w: int, found: int)
      requires Sized() && Distinct(Z()) && 0 <= found < zCount && windowZ[found] == w
      ensures OnTop(w) <==> found == zCount - 1
    {
      assert Z()[found] == w;
    }

    method RaiseFound(w: int, found: int)
      requires Valid() && Titled() && 0 <= found < zCount && windowZ[found] == w && w !in windowZ[..found]
      requires 1 <= w <= g.slots
      modifies this`focused, windowZ, screen, stores
      ensures Placed() && Titled() && old(Fine()) <= Fine()
      ensures Now() == Raised(old(Now()), w)
      ensures w == old(focused) && found == zCount - 1 ==> unchanged(screen)
    {
      SetFocus(w);
      if found == zCount - 1 {
        TopRaised(Z(), w);
      } else {
        Restack(w, found);
      }
    }

    // Putting w on top changes what is visible only in w's footprint.
    twostate lemma Restacked(new w: int)
      requires old(Sized()) && Sized() && 1 <= w <= g.slots
      requires Z() == Without(old(Z()), w) + [w] && unchanged(this) && unchanged(overlay) && unchanged(screen)
      requires forall i :: 0 <= i < |surf| ==> unchanged(surf[i]) && unchanged(surf[i].fb)
      ensures old(Fine()) <= Fine() + Area(Footprint(w))
    {
      forall x, y | g.OnScreen(x, y) && !Footprint(w).Has(x, y)
        ensures Top(x, y) == old(Top(x, y))
      {
        RaiseTop(old(Z()), w, pos, g, x, y);
      }
      StackChanged(Footprint(w));
    }

    // The top window is on top wherever it is.
    lemma TopCovers(w: int)
      requires Sized() && 1 <= w <= g.slots && OnTop(w)
      ensures Covered(Footprint(w)) == Area(Footprint(w))
    {
    }

    // ---------- window lifecycle ----------

    // Give the focus to the top of the stack after the focused window has gone.
    method RefocusToTopmost()
      requires Placed() && Titled() && (1 <= focused <= g.slots ==> types[focused - 1] == FREE)
      modifies this`focused, screen, stores
      ensures focused == (if Z() == [] then 0 else Z()[|Z()| - 1]) && Titled() && old(Fine()) <= Fine()
    {
      if zCount > 0 {
        focused := windowZ[zCount - 1];
        SameFine();
        RepaintTitleBar(focused);
        forall v | 1 <= v <= g.slots && types[v - 1] != FREE
          ensures TitleShown(v)
        {
          if v != focused {
            TitleKept(v);
          }
        }
      } else {
        focused := 0;
        SameFine();
        forall v | 1 <= v <= g.slots && types[v - 1] != FREE
          ensures TitleShown(v)
        {
          TitleKept(v);
        }
      }
    }

    // Taking w off the stack changes what is visible only in its footprint.
    twostate lemma Removed(new w: int)
      requires old(Sized()) && Sized() && 1 <= w <= g.slots
      requires Z() == Without(old(Z()), w) && pos == old(pos) && menu == old(menu)
      requires drag == old(drag) && menuDrag == old(menuDrag) && smears == old(smears)
      requires unchanged(overlay) && unchanged(screen)
      requires forall i :: 0 <= i < |surf| ==> unchanged(surf[i]) && unchanged(surf[i].fb)
      ensures old(Fine()) <= Fine() + Area(Footprint(w))
    {
      TopsKept(w);
      StackChanged(Footprint(w));
    }

    twostate lemma TopsKept(new w: int)
      requires old(Sized()) && Sized() && 1 <= w <= g.slots && Z() == Without(old(Z()), w) && pos == old(pos)
      ensures SameTops(Footprint(w))
    {
      forall x, y | g.OnScreen(x, y) && !Footprint(w).Has(x, y)
        ensures Top(x, y) == old(Top(x, y))
      {
        WithoutElsewhere(old(Z()), w, pos, g, x, y);
      }
    }

    // Take a window off the stack and its slot out of the tables.
    method DropWindow(w: int)
      requires Placed() && Titled() && 1 <= w <= g.slots && |kbd| == |ptr| == g.slots
      modifies this`zCount, this`types, this`kbd, this`ptr, windowZ
      ensures Placed() && Titled() && Z() == Without(old(Z()), w)
      ensures types == old(types)[w - 1 := FREE] && kbd == old(kbd)[w - 1 := 0] && ptr == old(ptr)[w - 1 := 0]
      ensures old(Fine()) <= Fine() + Area(Footprint(w))
    {
      ZRemove(w);
      types := types[w - 1 := FREE];
      kbd := kbd[w - 1 := 0];
      ptr := ptr[w - 1 := 0];
      Removed(w);
      forall v | 1 <= v <= g.slots && types[v - 1] != FREE
        ensures TitleShown(v)
      {
        TitleKept(v);
      }
    }

    method TearDown(w: int)
      requires Placed() && Titled() && 1 <= w <= g.slots && |kbd| == |ptr| == g.slots
      modifies this`zCount, this`types, this`kbd, this`ptr, this`focused, windowZ, screen, stores
      ensures Placed() && Titled() && Z() == Without(old(Z()), w)
      ensures types == old(types)[w - 1 := FREE] && kbd == old(kbd)[w - 1 := 0] && ptr == old(ptr)[w - 1 := 0]
      ensures focused == if old(focused) != w then old(focused) else if Z() == [] then 0 else Z()[|Z()| - 1]
      ensures old(Fine()) <= Fine()
    {
      var r := Footprint(w);
      DropWindow(w);
      LoseFocus(w);
      Recompose(r);
    }

    method LoseFocus(w: int)
      requires Placed() && Titled() && 1 <= w <= g.slots && types[w - 1] == FREE
      modifies this`focused, screen, stores
      ensures focused == if old(focused) != w then old(focused) else if Z() == [] then 0 else Z()[|Z()| - 1]
      ensures Titled() && old(Fine()) <= Fine()
    {
      if focused == w { RefocusToTopmost(); }
    }

    // Close a live window and repair the screen under it.
    method WindowTeardown(w: int)
      requires Valid() && Titled() && Now().Live(w)
      modifies this`zCount, this`types, this`kbd, this`ptr, this`focused, windowZ, screen, stores
      ensures Valid() && Titled() && old(Fine()) <= Fine()
      ensures Now() == Closed(old(Now()), g, w)
    {
      ClosedOk(Now(), g, w);
      TearDown(w);
      assert Now() == Closed(old(Now()), g, w);
    }

    method HandleDestroyWindow(w: int)
      requires Valid() && Titled()
      modifies this`zCount, this`types, this`kbd, this`ptr, this`focused, windowZ, screen, stores
      ensures Valid() && Titled() && old(Fine()) <= Fine()
      ensures Now() == Destroyed(old(Now()), g, w)
    {
      if w < 1 || w > g.slots { return; }
      if types[w - 1] == FREE { return; }
      WindowTeardown(w);
    }

    // Close every live window whose owner has exited.
    method ScanOwnerExits(exited: set<int>)
      requires Valid() && Titled()
      modifies this`zCount, this`types, this`kbd, this`ptr, this`focused, windowZ, screen, stores
      ensures Valid() && Titled() && old(Fine()) <= Fine()
      ensures Now() == Reaped(old(Now()), g, exited, 0)
    {
      var w := 1;
      while w <= g.slots
        invariant 1 <= w <= g.slots + 1 && Valid() && Titled() && old(Fine()) <= Fine()
        invariant Reaped(Now(), g, exited, w - 1) == Reaped(old(Now()), g, exited, 0)
      {
        if types[w - 1] != FREE && w in exited {
          WindowTeardown(w);
        }
        w := w + 1;
      }
    }

    // Putting a new window on the stack changes what is visible only in its footprint.
    twostate lemma Added(new w: int)
      requires old(Sized()) && Sized() && 1 <= w <= g.slots && w !in old(Z())
      requires Z() == old(Z()) + [w] && pos == old(pos)[w - 1 := pos[w - 1]] && menu == old(menu)
      requires drag == old(drag) && menuDrag == old(menuDrag) && smears == old(smears)
      requires unchanged(overlay) && unchanged(screen)
      requires forall i :: 0 <= i < |surf| ==> unchanged(surf[i]) && unchanged(surf[i].fb)
      ensures old(Fine()) <= Fine() + Area(Footprint(w))
    {
      forall x, y | g.OnScreen(x, y) && !Footprint(w).Has(x, y)
        ensures Top(x, y) == old(Top(x, y))
      {
        PushTop(old(Z()), w, pos, g, x, y);
        OthersDecide(old(Z()), w, old(pos), pos[w - 1], g, x, y);
      }
      StackChanged(Footprint(w));
    }

    // Place a new window and put it on top.
    method PushWindow(w: int)
      requires Placed() && 1 <= w <= g.slots && w !in Z() && zCount < g.slots
      modifies this`pos, this`zCount, windowZ
      ensures Placed() && pos == old(pos)[w - 1 := CascadeAt(g, |old(Z())|)] && Z() == old(Z()) + [w]
      ensures old(Fine()) <= Fine() + Area(Footprint(w))
    {
      pos := pos[w - 1 := CascadeAt(g, zCount)];
      windowZ[zCount] := w;
      zCount := zCount + 1;
      assert Z() == old(Z()) + [w];
      Added(w);
    }

    // A new backing store: all zero, then the window face.
    method PaintFace(w: int)
      requires Placed() && 1 <= w <= g.slots && surf[w - 1].Valid()
      modifies surf[w - 1], surf[w - 1].fb
      ensures surf[w - 1].Valid() && surf[w - 1].Bounds() == old(surf[w - 1].Bounds()) && surf[w - 1].Home()
      ensures forall a, b :: g.Local(a, b) ==> surf[w - 1].fb[a, b] == ink[Part.Face][a][b]
      ensures old(Fine()) <= Fine() + Area(Footprint(w))
    {
      surf[w - 1].Wipe();
      surf[w - 1].StampPicture(g.Whole(), ink[Part.Face]);
      Spoiled(w, g.Whole());
    }

    // A new window inside its frame: title bar, scrollbar, and the face.
    ghost function ChromeLook(w: int, a: int, b: int): Color
      requires Wired() && 1 <= w <= g.slots && |elev| == |titles| == g.slots && g.Local(a, b)
      reads this`elev, this`bar, this`titles, this`focused
    {
      if g.TitleRect().Has(a, b) then ink[TitlePart(w)][a][b]
      else if g.BarRect().Has(a, b) then ink[BarPart(w)][a][b]
      else ink[Part.Face][a][b]
    }

    ghost predicate InsideNew(w: int)
      requires Wired() && 1 <= w <= g.slots && |elev| == |titles| == g.slots
      reads this`elev, this`bar, this`titles, this`focused, surf[w - 1].fb
    {
      forall a, b {:trigger ChromeLook(w, a, b)} :: g.Local(a, b) ==> surf[w - 1].fb[a, b] == ChromeLook(w, a, b)
    }

    // Every pixel of a new window: frame, title bar with an empty title, scrollbar, and the face.
    ghost predicate LooksNew(w: int)
      requires Wired() && 1 <= w <= g.slots && |elev| == |titles| == g.slots
      reads this`elev, this`bar, this`titles, this`focused, surf[w - 1].fb
    {
      forall a, b {:trigger ChromeLook(w, a, b)} :: g.Local(a, b) ==>
        surf[w - 1].fb[a, b] == if OnOutline(g.Whole(), a, b) then ink[Border][a][b] else ChromeLook(w, a, b)
    }

    // The frame around the window; the title bar is inside it.
    method PaintBorder(w: int)
      requires Placed() && 1 <= w <= g.slots
      modifies surf[w - 1].fb
      ensures old(TitleShown(w)) ==> TitleShown(w)
      ensures old(Titled()) ==> Titled()
      ensures forall a, b :: g.Local(a, b) ==>
        surf[w - 1].fb[a, b] == if OnOutline(g.Whole(), a, b) then ink[Border][a][b] else old(surf[w - 1].fb[a, b])
      ensures old(Fine()) <= Fine() + Area(Footprint(w))
    {
      StampFrame(w);
      if old(Titled()) { StillTitled(w); }
      Spoiled(w, g.Whole());
    }

    method StampFrame(w: int)
      requires Placed() && 1 <= w <= g.slots
      modifies surf[w - 1].fb
      ensures old(TitleShown(w)) ==> TitleShown(w)
      ensures forall a, b :: g.Local(a, b) ==>
        surf[w - 1].fb[a, b] == if OnOutline(g.Whole(), a, b) then ink[Border][a][b] else old(surf[w - 1].fb[a, b])
    {
      surf[w - 1].StampPicture(Rect(0, 0, g.UW(), OUTLINE), ink[Border]);
      surf[w - 1].StampPicture(Rect(0, g.UH() - OUTLINE, g.UW(), OUTLINE), ink[Border]);
      surf[w - 1].StampPicture(Rect(0, 0, OUTLINE, g.UH()), ink[Border]);
      surf[w - 1].StampPicture(Rect(g.UW() - OUTLINE, 0, OUTLINE, g.UH()), ink[Border]);
    }

    function BarPart(w: int): Part
      requires 1 <= w <= |elev|
      reads this`elev, this`bar
    {
      Bar(elev[w - 1], bar, bar.wid == w)
    }

    // The scrollbar of window w shows its elevator where it is, and what is held of it.
    ghost predicate BarShown(w: int)
      requires Wired() && 1 <= w <= g.slots && |elev| == g.slots
      reads this`elev, this`bar, surf[w - 1].fb
    {
      forall a, b :: g.BarRect().Has(a, b) ==> surf[w - 1].fb[a, b] == ink[BarPart(w)][a][b]
    }

    // The scrollbar, below the title bar.
    method PaintScrollbar(w: int)
      requires Placed() && 1 <= w <= g.slots && |elev| == g.slots
      modifies surf[w - 1].fb
      ensures old(TitleShown(w)) ==> TitleShown(w)
      ensures old(Fine()) <= Fine() + Covered(OnWindow(w, g.BarRect())) && BarShown(w)
      ensures forall a, b :: g.Local(a, b) && !g.BarRect().Has(a, b) ==> surf[w - 1].fb[a, b] == old(surf[w - 1].fb[a, b])
    {
      surf[w - 1].StampPicture(g.BarRect(), ink[BarPart(w)]);
      Spoiled(w, g.BarRect());
    }

    // Everything inside the frame of a new window.
    method DressInside(w: int)
      requires Placed() && 1 <= w <= g.slots && |elev| == g.slots && surf[w - 1].Valid()
      modifies screen, surf[w - 1], surf[w - 1].fb
      ensures surf[w - 1].Valid() && TitleShown(w) && surf[w - 1].Home() && InsideNew(w)
      ensures old(Fine()) <= Fine() + Area(Footprint(w))
      ensures forall i :: 0 <= i < |surf| ==> surf[i].Bounds() == old(surf[i].Bounds())
    {
      PaintFace(w);
      DressParts(w);
      CompositeWindowRegion(w, Rect(CONTENT_X, CONTENT_Y, g.CW(), g.CH()));
    }

    // Title bar and scrollbar, over the face.
    method DressParts(w: int)
      requires Placed() && 1 <= w <= g.slots && |elev| == g.slots
      requires forall a, b :: g.Local(a, b) ==> surf[w - 1].fb[a, b] == ink[Part.Face][a][b]
      modifies screen, surf[w - 1].fb
      ensures TitleShown(w) && InsideNew(w)
      ensures old(Fine()) <= Fine() + Area(Footprint(w))
    {
      PaintTitleBar(w);
      PaintScrollbar(w);
    }

    // The frame, and the whole window onto the screen.
    method DressEdge(w: int)
      requires Placed() && 1 <= w <= g.slots
      requires OnTop(w) && |elev| == g.slots
      modifies screen, surf[w - 1].fb
      ensures old(TitleShown(w)) ==> TitleShown(w)
      ensures old(Titled()) ==> Titled()
      ensures old(InsideNew(w)) ==> LooksNew(w)
      ensures old(Fine()) <= Fine() && Area(Footprint(w)) <= Fine()
    {
      PaintBorder(w);
      CompositeTop(w);
    }

    // The whole top window onto the screen.
    method CompositeTop(w: int)
      requires Placed() && 1 <= w <= g.slots
      requires OnTop(w)
      modifies screen
      ensures old(Fine()) <= Fine() && Area(Footprint(w)) <= Fine()
    {
      assert OnWindow(w, g.Whole()) == Footprint(w);
      TopCovers(w);
      CompositeWindowRegion(w, g.Whole());
    }

    // Painting that spares a window's own title bar spares all of them.
    twostate lemma StillTitled(new w: int)
      requires old(Sized()) && Sized() && 1 <= w <= g.slots && old(Titled()) && unchanged(this)
      requires forall i :: 0 <= i < |surf| && i != w - 1 ==> unchanged(surf[i].fb)
      requires old(TitleShown(w)) ==> TitleShown(w)
      ensures Titled()
    {
      forall v | 1 <= v <= g.slots && types[v - 1] != FREE && v != w
        ensures TitleShown(v)
      {
        assert unchanged(surf[v - 1].fb);
        TitleKept(v);
      }
    }

    // Painting in window w leaves the other title bars alone.
    twostate lemma OthersTitled(new w: int)
      requires old(Sized()) && Sized() && 1 <= w <= g.slots && old(Titled())
      requires types == old(types) && focused == old(focused) && titles == old(titles)[w - 1 := titles[w - 1]]
      requires forall i :: 0 <= i < |surf| && i != w - 1 ==> unchanged(surf[i].fb)
      requires types[w - 1] != FREE ==> TitleShown(w)
      ensures Titled()
    {
      forall v | 1 <= v <= g.slots && types[v - 1] != FREE
        ensures TitleShown(v)
      {
        if v != w {
          assert unchanged(surf[v - 1].fb);
          TitleKept(v);
        }
      }
    }

    // Put a new window on top and give it the focus.
    method PushFocused(w: int)
      requires Placed() && Titled() && 1 <= w <= g.slots && types[w - 1] == FREE
      requires w !in Z() && zCount < g.slots
      modifies this`pos, this`zCount, this`focused, windowZ, screen, stores
      ensures Placed() && Titled() && Z() == old(Z()) + [w] && focused == w
      ensures pos == old(pos)[w - 1 := CascadeAt(g, |old(Z())|)]
      ensures old(Fine()) <= Fine() + Area(Footprint(w))
    {
      PushWindow(w);
      forall v | 1 <= v <= g.slots && types[v - 1] != FREE
        ensures TitleShown(v)
      {
        TitleKept(v);
      }
      // The slot is still free, so this repaints only the bar that loses the focus.
      SetFocus(w);
    }

    // Fresh title and elevator, and everything inside the frame.
    method SetUp(w: int)
      requires Placed() && Titled() && 1 <= w <= g.slots && types[w - 1] == FREE && focused == w
      requires |elev| == g.slots && surf[w - 1].Valid()
      modifies this`titles, this`elev, screen, surf[w - 1], surf[w - 1].fb
      ensures Placed() && Titled() && surf[w - 1].Valid() && TitleShown(w) && surf[w - 1].Home()
      ensures |elev| == g.slots && InsideNew(w)
      ensures titles == old(titles)[w - 1 := ""] && elev == old(elev)[w - 1 := g.ElevMin()]
      ensures old(Fine()) <= Fine() + Area(Footprint(w))
      ensures forall i :: 0 <= i < |surf| ==> surf[i].Bounds() == old(surf[i].Bounds())
    {
      titles := titles[w - 1 := ""];
      elev := elev[w - 1 := g.ElevMin()];
      SameFine();
      DressInside(w);
      OthersTitled(w);
    }

    // Set up a new window in free slot w: on top, focused, fully painted and on screen.
    method OpenAt(w: int)
      requires Placed() && Titled() && 1 <= w <= g.slots && types[w - 1] == FREE
      requires w !in Z() && zCount < g.slots && |elev| == g.slots && surf[w - 1].Valid()
      modifies this`pos, this`zCount, this`focused, this`titles, this`elev, windowZ
      modifies screen, surf[w - 1], stores
      ensures Placed() && surf[w - 1].Valid() && Z() == old(Z()) + [w] && focused == w
      ensures pos == old(pos)[w - 1 := CascadeAt(g, |old(Z())|)] && elev == old(elev)[w - 1 := g.ElevMin()]
      ensures titles == old(titles)[w - 1 := ""]
      ensures Titled() && TitleShown(w) && surf[w - 1].Home() && LooksNew(w)
      ensures old(Fine()) <= Fine()
      ensures forall i :: 0 <= i < |surf| ==> surf[i].Bounds() == old(surf[i].Bounds())
    {
      PushFocused(w);
      SetUp(w);
      DressEdge(w);
    }

    method OpenSlot(w: int)
      requires Placed() && Titled() && 1 <= w <= g.slots && types[w - 1] == FREE
      requires w !in Z() && zCount < g.slots && |elev| == g.slots
      requires forall i :: 0 <= i < |surf| ==> surf[i].Valid()
      modifies this`types, this`pos, this`zCount, this`focused, this`titles, this`elev, windowZ
      modifies screen, surf, stores
      ensures Sized() && Z() == old(Z()) + [w] && focused == w && types == old(types)[w - 1 := CONSOLE]
      ensures pos == old(pos)[w - 1 := CascadeAt(g, |old(Z())|)] && elev == old(elev)[w - 1 := g.ElevMin()]
      ensures titles == old(titles)[w - 1 := ""]
      ensures Titled() && old(Fine()) <= Fine() && surf[w - 1].Home() && LooksNew(w)
      ensures forall i :: 0 <= i < |surf| ==> surf[i].Valid()
      ensures forall i :: 0 <= i < |surf| ==> surf[i].Bounds() == old(surf[i].Bounds())
    {
      OpenAt(w);
      Register(w);
    }

    lemma RoomFor(w: int)
      requires Valid() && 1 <= w <= g.slots && types[w - 1] == FREE
      ensures w !in Z() && zCount < g.slots
    {
      assert !Now().Live(w);
      Room(Z(), w, g.slots);
    }

    method OpenWindow(w: int)
      requires Valid() && Titled() && 1 <= w <= g.slots && types[w - 1] == FREE
      modifies this`types, this`pos, this`zCount, this`focused, this`titles, this`elev, windowZ
      modifies screen, surf, stores
      ensures Valid() && Titled() && old(Fine()) <= Fine()
      ensures Now() == Opened(old(Now()), g, w) && surf[w - 1].Home()
      ensures titles == old(titles)[w - 1 := ""] && LooksNew(w)
      ensures forall i :: 0 <= i < |surf| ==> surf[i].Bounds() == old(surf[i].Bounds())
    {
      RoomFor(w);
      OpenedOk(Now(), g, w);
      OpenSlot(w);
      assert Now() == Opened(old(Now()), g, w);
    }

    // Only now is the slot taken.
    method Register(w: int)
      requires Placed() && Titled() && 1 <= w <= g.slots && TitleShown(w)
      modifies this`types
      ensures types == old(types)[w - 1 := CONSOLE] && Placed() && Titled() && Fine() == old(Fine())
    {
      types := types[w - 1 := CONSOLE];
      SameFine();
      forall v | 1 <= v <= g.slots && types[v - 1] != FREE
        ensures TitleShown(v)
      {
        TitleKept(v);
      }
    }

    // The first free slot; one past the last when there is none.
    method FindFree() returns (w: int)
      requires Sized()
      ensures w == FreeSlot(types, 0)
    {
      w := 1;
      while w <= g.slots && types[w - 1] != FREE
        invariant 1 <= w <= g.slots + 1
        invariant FreeSlot(types, w - 1) == FreeSlot(types, 0)
      {
        w := w + 1;
      }
    }

    // WM_OP_NEW_WINDOW.  The flag says whether the services and the store were allocated.
    method HandleNewWindow(wtype: int, granted: bool) returns (wid: int)
      requires Valid() && Titled()
      modifies this`types, this`pos, this`zCount, this`focused, this`titles, this`elev, windowZ
      modifies screen, surf, stores
      ensures Valid() && Titled() && old(Fine()) <= Fine()
      ensures Now() == Created(old(Now()), g, wtype, granted)
      ensures wid == if wtype == CONSOLE && granted && FREE in old(types) then FreeSlot(old(types), 0) else 0
      ensures if wid == 0 then unchanged(screen) && unchanged(stores) else wid <= |surf| && surf[wid - 1].Home()
      ensures wid != 0 ==> titles == old(titles)[wid - 1 := ""] && LooksNew(wid)
      ensures forall i :: 0 <= i < |surf| ==> surf[i].Bounds() == old(surf[i].Bounds())
    {
      wid := 0;
      if wtype != CONSOLE { return; }
      var w := FindFree();
      if w > g.slots { return; }
      if !granted { return; }
      OpenWindow(w);
      wid := w;
    }

    // ---------- painting requests ----------

    // What is visible depends on the top window's pixel only.
    twostate lemma SameFace(new x: int, new y: int)
      requires old(Sized()) && Sized() && g.OnScreen(x, y)
      requires Z() == old(Z()) && pos == old(pos) && menu == old(menu) && unchanged(overlay)
      requires Top(x, y) != 0 ==> Face(Top(x, y), x, y) == old(Face(Top(x, y), x, y))
      ensures Visible(x, y) == old(Visible(x, y))
    {
    }

    // Pixels that a paint request changes are excused until they are copied.
    twostate lemma PaintedOver(new w: int)
      requires old(Sized()) && Sized() && 1 <= w <= g.slots && surf[w - 1].Painted()
      requires unchanged(this) && unchanged(windowZ) && unchanged(overlay) && unchanged(screen)
      requires forall i :: 0 <= i < |surf| && i != w - 1 ==> unchanged(surf[i])
      requires forall i :: 0 <= i < |surf| && i != w - 1 ==> unchanged(surf[i].fb)
      ensures old(Fine()) <= Fine()
    {
      forall p: Point | p in old(Fine())
        ensures p in Fine()
      {
        if Top(p.x, p.y) == w {
          PaintedPixel(w, p.x, p.y);
        } else {
          ElsewhereKept(w, p.x, p.y);
        }
      }
    }

    // Where window w is on top, a pixel is as before, or it is waiting to be copied.
    twostate lemma PaintedPixel(new w: int, new x: int, new y: int)
      requires old(Sized()) && Sized() && 1 <= w <= g.slots && surf[w - 1].Painted()
      requires unchanged(this) && unchanged(windowZ) && unchanged(overlay) && unchanged(screen)
      requires g.OnScreen(x, y) && Top(x, y) == w && old(Ok(x, y))
      ensures Ok(x, y)
    {
      var a, b := x - pos[w - 1].x, y - pos[w - 1].y;
      assert g.Local(a, b);
      if !Unflushed(x, y) {
        assert Face(w, x, y) == old(Face(w, x, y));
        SameFace(x, y);
      }
    }

    twostate lemma ElsewhereKept(new w: int, new x: int, new y: int)
      requires old(Sized()) && Sized()
      requires unchanged(this) && unchanged(windowZ) && unchanged(overlay) && unchanged(screen)
      requires forall i :: 0 <= i < |surf| && i != w - 1 ==> unchanged(surf[i])
      requires forall i :: 0 <= i < |surf| && i != w - 1 ==> unchanged(surf[i].fb)
      requires g.OnScreen(x, y) && Top(x, y) != w && old(Ok(x, y))
      ensures Ok(x, y)
    {
      var t := Top(x, y);
      if t != 0 {
        assert unchanged(surf[t - 1]) && unchanged(surf[t - 1].fb);
      }
      SameFace(x, y);
    }

    // Content and title bar do not meet.
    twostate lemma PaintKeepsTitle(new w: int)
      requires old(Sized()) && Sized() && 1 <= w <= g.slots && surf[w - 1].Painted() && unchanged(this)
      ensures old(TitleShown(w)) ==> TitleShown(w)
    {
      forall a, b | g.TitleRect().Has(a, b)
        ensures surf[w - 1].fb[a, b] == old(surf[w - 1].fb[a, b])
      {
        assert g.Local(a, b) && !g.Content(a, b);
      }
    }

    // One request of window w's client.
    method PaintInto(w: int, op: Surf.PaintOp)
      requires Valid() && Titled() && 1 <= w <= g.slots
      modifies surf[w - 1], surf[w - 1].fb, surf[w - 1].scratch
      ensures Valid() && Titled() && old(Fine()) <= Fine()
      ensures surf[w - 1].Contents() == surf[w - 1].After(old(surf[w - 1].Contents()), op)
    {
      surf[w - 1].Paint(op);
      PaintedOver(w);
      PaintKeepsTitle(w);
      StillTitled(w);
    }

    // Once the dirty box is on screen it can be forgotten.
    twostate lemma Copied(new w: int)
      requires old(Sized()) && Sized() && 1 <= w <= g.slots
      requires unchanged(this) && unchanged(windowZ) && unchanged(overlay) && unchanged(screen)
      requires forall i :: 0 <= i < |surf| && i != w - 1 ==> unchanged(surf[i])
      requires forall i :: 0 <= i < |surf| ==> unchanged(surf[i].fb)
      requires forall x, y :: g.OnScreen(x, y) && old(OnWindow(w, DirtyRect(w)).Has(x, y) && Top(x, y) != 0) ==> Right(x, y)
      ensures old(Fine()) <= Fine()
    {
      forall p: Point | p in old(Fine())
        ensures p in Fine()
      {
        assert Visible(p.x, p.y) == old(Visible(p.x, p.y));
        var t := Top(p.x, p.y);
        if t != 0 && t != w {
          assert unchanged(surf[t - 1]);
        }
      }
    }

    function DirtyRect(w: int): Rect
      requires Sized() && 1 <= w <= g.slots
      reads this`zCount, this`types, this`pos, this`titles, surf[w - 1]
    {
      Rect(surf[w - 1].x0, surf[w - 1].y0, surf[w - 1].x1 - surf[w - 1].x0, surf[w - 1].y1 - surf[w - 1].y0)
    }

    // Copy a window's dirty box to the screen and empty it.
    method CompositeWindowDirty(w: int)
      requires Valid() && Titled() && 1 <= w <= g.slots
      modifies screen, surf[w - 1]
      ensures Valid() && Titled() && old(Fine()) <= Fine()
      ensures surf[w - 1].Clean() && surf[w - 1].Contents() == old(surf[w - 1].Contents())
    {
      if surf[w - 1].x1 <= surf[w - 1].x0 { return; }
      CompositeWindowRegion(w, DirtyRect(w));
      ForgetDirty(w);
    }

    // The dirty box has been copied: empty it.
    method ForgetDirty(w: int)
      requires Valid() && Titled() && 1 <= w <= g.slots
      requires forall x, y :: g.OnScreen(x, y) && OnWindow(w, DirtyRect(w)).Has(x, y) && Top(x, y) != 0 ==> Right(x, y)
      modifies surf[w - 1]
      ensures Valid() && Titled() && old(Fine()) <= Fine()
      ensures surf[w - 1].Clean() && surf[w - 1].Contents() == old(surf[w - 1].Contents())
    {
      surf[w - 1].ClearDirty();
      Copied(w);
    }

    // A burst of requests into one window, then one copy of what they touched.
    method DrainWindow(w: int, ops: seq<Surf.PaintOp>)
      requires Valid() && Titled() && 1 <= w <= g.slots
      modifies screen, surf[w - 1], surf[w - 1].fb, surf[w - 1].scratch
      ensures Valid() && Titled() && old(Fine()) <= Fine() && surf[w - 1].Clean()
      ensures surf[w - 1].Contents() == surf[w - 1].AfterAll(old(surf[w - 1].Contents()), ops)
    {
      ghost var before := surf[w - 1].Contents();
      var i := 0;
      while i < |ops|
        invariant 0 <= i <= |ops| && Valid() && Titled() && old(Fine()) <= Fine()
        invariant surf[w - 1].Contents() == surf[w - 1].AfterAll(before, ops[..i])
      {
        assert ops[..i + 1][..i] == ops[..i];
        PaintInto(w, ops[i]);
        i := i + 1;
      }
      assert ops[..i] == ops;
      CompositeWindowDirty(w);
    }

    // ---------- scrollbars ----------

    ghost predicate Ready()
      reads this, windowZ, stores
    {
      Placed() && Now().Sized(g) && Titled()
    }

    // Repaint a window's scrollbar column.
    method BarRepaint(w: int)
      requires Ready() && 1 <= w <= g.slots
      modifies screen, surf[w - 1].fb
      ensures Ready() && old(Fine()) <= Fine() && BarShown(w)
      ensures forall x, y :: g.OnScreen(x, y) && OnWindow(w, g.BarRect()).Has(x, y) && Top(x, y) != 0 ==> Right(x, y)
    {
      StampBar(w);
      CompositeWindowRegion(w, g.BarRect());
    }

    method StampBar(w: int)
      requires Ready() && 1 <= w <= g.slots
      modifies surf[w - 1].fb
      ensures Ready() && old(Fine()) <= Fine() + Covered(OnWindow(w, g.BarRect())) && BarShown(w)
    {
      PaintScrollbar(w);
      StillTitled(w);
    }

    // Move a window's elevator, within its track.
    method MoveElevator(w: int, e: int)
      requires Ready() && 1 <= w <= g.slots
      modifies this`elev, screen, stores
      ensures Ready() && old(Fine()) <= Fine() && Now() == SetElev(old(Now()), g, w, e) && BarShown(w)
    {
      elev := elev[w - 1 := Clamp(e, g.ElevMin(), g.ElevMax())];
      SameFine();
      KeepTitles();
      BarRepaint(w);
    }

    // Nothing that title bars depend on has changed.
    twostate lemma KeepTitles()
      requires old(Sized()) && Sized() && old(Titled())
      requires types == old(types) && focused == old(focused) && titles == old(titles)
      requires forall i :: 0 <= i < |surf| ==> unchanged(surf[i].fb)
      ensures Titled()
    {
      forall v | 1 <= v <= g.slots && types[v - 1] != FREE
        ensures TitleShown(v)
      {
        assert unchanged(surf[v - 1].fb);
        TitleKept(v);
      }
    }

    method LineStep(w: int, dir: int)
      requires Ready() && 1 <= w <= g.slots
      modifies this`elev, screen, stores
      ensures Ready() && old(Fine()) <= Fine() && Now() == LineStepped(old(Now()), g, w, dir) && BarShown(w)
    {
      MoveElevator(w, elev[w - 1] + (if dir == 1 then -ELEV_LINE else ELEV_LINE));
    }

    // Tell the client the offset its elevator stands for.
    method SendOffset(w: int)
      requires Ready() && 1 <= w <= g.slots
      modifies this`sent
      ensures Ready() && Fine() == old(Fine()) && Now() == PushOffset(old(Now()), g, w)
    {
      var maxOff := content[w - 1] - g.CH();
      if maxOff <= 0 { return; }
      var offset := OffsetOf(elev[w - 1], maxOff, g);
      if ptr[w - 1] == 0 { return; }
      sent := sent + [Scroll(ptr[w - 1], offset)];
      SameFine();
      KeepTitles();
    }

    // The pointer takes hold of a scrollbar; nothing is repainted yet.
    method TakeBar(grab: BarGrab)
      requires Ready()
      modifies this`bar
      ensures Ready() && Fine() == old(Fine()) && bar == grab && Now() == old(Now()).(bar := grab)
    {
      bar := grab;
      SameFine();
      KeepTitles();
    }

    method PressTo(w: int, grab: BarGrab, e: int)
      requires Ready() && 1 <= w <= g.slots
      modifies this`bar, this`elev, this`sent, screen, stores
      ensures Ready() && old(Fine()) <= Fine() && Now() == Pressed(old(Now()), g, w, grab, e) && BarShown(w)
    {
      TakeBar(grab);
      MoveElevator(w, e);
      SendOffset(w);
    }

    // A press on a scrollbar region.
    method PressBar(w: int, hit: Hit, py: int)
      requires Ready() && 1 <= w <= g.slots
      modifies this`bar, this`elev, this`sent, screen, stores
      ensures Ready() && old(Fine()) <= Fine() && Now() == BarPressed(old(Now()), g, w, hit, py)
      ensures !hit.Miss? ==> BarShown(w)
    {
      if hit.Miss? { return; }
      if hit.Elev? {
        TakeBar(bar.(dragging := true, wid := w, grabOff := py - (pos[w - 1].y + elev[w - 1])));
        BarRepaint(w);
      } else {
        PressPart(w, hit, py);
      }
    }

    method PressPart(w: int, hit: Hit, ghost py: int)
      requires Ready() && 1 <= w <= g.slots && !hit.Miss? && !hit.Elev?
      modifies this`bar, this`elev, this`sent, screen, stores
      ensures Ready() && old(Fine()) <= Fine() && Now() == BarPressed(old(Now()), g, w, hit, py) && BarShown(w)
    {
      var grab, e := bar, elev[w - 1];
      match hit {
        case LineUp => grab, e := bar.(wid := w, arrow := 1), e - ELEV_LINE;
        case LineDown => grab, e := bar.(wid := w, arrow := 2), e + ELEV_LINE;
        case Top => grab, e := bar.(wid := w, anchor := 1), g.ElevMin();
        case Bottom => grab, e := bar.(wid := w, anchor := 2), g.ElevMax();
        case PageUp => e := e - ELEV_PAGE;
        case PageDown => e := e + ELEV_PAGE;
      }
      assert grab == GrabOf(bar, w, hit) && e == TargetOf(elev[w - 1], g, hit);
      PressIs(Now(), g, w, hit, py);
      PressTo(w, grab, e);
    }

    // The pointer moves with the elevator held.
    method DragBar(py: int)
      requires Ready()
      modifies this`bar, this`elev, this`sent, screen, stores
      ensures Ready() && old(Fine()) <= Fine() && Now() == BarMoved(old(Now()), g, py)
      ensures elev != old(elev) ==> 1 <= bar.wid <= g.slots && BarShown(bar.wid)
    {
      var w := bar.wid;
      if w < 1 || w > g.slots {
        TakeBar(bar.(dragging := false));
        return;
      }
      var e := Clamp(py - bar.grabOff - pos[w - 1].y, g.ElevMin(), g.ElevMax());
      if e == elev[w - 1] { return; }
      MoveElevator(w, e);
      SendOffset(w);
    }

    method ReleaseBar()
      requires Ready() && 1 <= bar.wid <= g.slots
      modifies this`bar, this`sent, screen, stores
      ensures Ready() && old(Fine()) <= Fine() && Now() == Released(old(Now()), g)
      ensures 1 <= bar.wid <= g.slots && BarShown(bar.wid)
    {
      var wasArrow, w := bar.arrow, bar.wid;
      TakeBar(bar.(dragging := false, arrow := 0, anchor := 0));
      BarRepaint(w);
      if wasArrow != 0 { SendOffset(w); }
    }

    // WM_OP_SET_SCROLL.
    method HandleSetScroll(w: int, total: int, offset: int)
      requires Ready()
      modifies this`content, this`elev, screen, stores
      ensures Ready() && old(Fine()) <= Fine() && Now() == ScrollSet(old(Now()), g, w, total, offset)
      ensures 1 <= w <= g.slots && !(bar.dragging && bar.wid == w) ==> BarShown(w)
    {
      if w < 1 || w > g.slots { return; }
      var e := ElevOf(offset, total - g.CH(), g);
      content := content[w - 1 := total];
      SameFine();
      KeepTitles();
      if !(bar.dragging && bar.wid == w) {
        MoveElevator(w, e);
      }
    }

    // ---------- the desktop menu ----------

    function MenuRect(): Rect
      reads this`menu
    {
      Rect(menu.x, menu.y, g.menuW, g.MenuH())
    }

    // Draw part of the menu into the overlay.
    method StampOverlay(area: Rect)
      requires Placed()
      modifies overlay
      ensures forall x, y :: g.OnScreen(x, y) ==>
        overlay[x, y] == if area.Has(x, y) then plate[menu][x][y] else old(overlay[x, y])
    {
      var part, picture := Meet(area, Rect(0, 0, g.fbW, g.fbH)), plate[menu];
      if part.w <= 0 || part.h <= 0 { return; }
      forall x, y | part.x <= x < part.x + part.w && part.y <= y < part.y + part.h {
        overlay[x, y] := picture[x][y];
      }
    }

    // How a menu looks at a pixel.
    function Look(m: Menu, x: int, y: int): Color
      requires Wired() && g.OnScreen(x, y)
    {
      plate[m][x][y]
    }

    // The overlay shows the menu, every row as it was drawn last.
    ghost predicate Inked()
      requires Wired()
      reads this`menu, overlay
    {
      menu.active ==> forall x, y {:trigger Look(menu, x, y)} ::
        g.OnScreen(x, y) && MenuRect().Has(x, y) ==> overlay[x, y] == Look(menu, x, y)
    }

    // So does the screen.
    ghost predicate MenuDrawn()
      requires Wired()
      reads this`menu, screen
    {
      forall x, y {:trigger Look(menu, x, y)} :: g.OnScreen(x, y) && MenuRect().Has(x, y) ==> screen[x, y] == Look(menu, x, y)
    }

    // A change of the menu that is drawn where it shows.
    twostate lemma StillInked(new area: Rect)
      requires Wired() && old(menu.active) == menu.active && old(Inked())
      requires forall x, y :: g.OnScreen(x, y) && MenuRect().Has(x, y) && !area.Has(x, y) ==>
        overlay[x, y] == old(overlay[x, y]) && SameLook(g, old(menu), menu, x, y)
      requires forall x, y :: g.OnScreen(x, y) && area.Has(x, y) ==> overlay[x, y] == plate[menu][x][y]
      requires old(menu.x) == menu.x && old(menu.y) == menu.y
      ensures Inked()
    {
      forall x, y | g.OnScreen(x, y) && MenuRect().Has(x, y) && menu.active
        ensures overlay[x, y] == Look(menu, x, y)
      {
        if !area.Has(x, y) { assert Look(old(menu), x, y) == Look(menu, x, y); }
      }
    }

    // A change to the menu is harmless when each pixel ends up right or excused, or neither it
    // nor its part of the menu changed.
    twostate lemma Redrawn()
      requires old(Sized()) && Sized() && Z() == old(Z()) && pos == old(pos)
      requires forall i :: 0 <= i < |surf| ==> unchanged(surf[i]) && unchanged(surf[i].fb)
      requires drag == old(drag) && menuDrag == old(menuDrag) && old(smears) <= smears
      requires forall x, y :: g.OnScreen(x, y) ==>
        || Right(x, y)
        || Excused(x, y)
        || (screen[x, y] == old(screen[x, y]) && InMenu(x, y) == old(InMenu(x, y))
            && (InMenu(x, y) ==> overlay[x, y] == old(overlay[x, y])))
      ensures old(Fine()) <= Fine()
    {
      forall p: Point | p in old(Fine())
        ensures p in Fine()
      {
        var t := Top(p.x, p.y);
        assert t == old(Top(p.x, p.y));
        if t != 0 {
          assert unchanged(surf[t - 1]) && unchanged(surf[t - 1].fb);
        }
        if old(Excused(p.x, p.y)) {
          assert Excused(p.x, p.y);
        }
      }
    }

    // Draw the whole menu into the overlay.
    method DrawMenu()
      requires Placed()
      modifies overlay
      ensures Inked()
      ensures forall x, y :: g.OnScreen(x, y) ==>
        overlay[x, y] == if MenuRect().Has(x, y) then plate[menu][x][y] else old(overlay[x, y])
    {
      StampOverlay(MenuRect());
    }

    // Summon the menu at a point, moved so that it fits the screen.
    method ShowMenu(px: int, py: int)
      requires Ready()
      modifies this`menu, overlay, screen
      ensures Ready() && old(Fine()) <= Fine() && Now() == Shown(old(Now()), g, px, py)
      ensures old(!menu.active) ==> Inked() && MenuDrawn()
      ensures old(Inked()) ==> Inked()
    {
      if menu.active { return; }
      var x := if px + g.menuW > g.fbW then g.fbW - g.menuW else px;
      var y := if py + g.MenuH() > g.fbH then g.fbH - g.MenuH() else py;
      PutMenu(if x < 0 then 0 else x, if y < 0 then 0 else y);
    }

    method PutMenu(x: int, y: int)
      requires Ready() && !menu.active && Fits(Point(x, y), g.menuW, g.MenuH(), g)
      modifies this`menu, overlay, screen
      ensures Ready() && old(Fine()) <= Fine() && menu == Menu(true, false, x, y, -1, {})
      ensures Inked() && MenuDrawn()
    {
      menu := Menu(true, false, x, y, -1, {});
      DrawMenu();
      CompositeMenuOverlay(MenuRect());
      Redrawn();
      KeepTitles();
    }

    // Take the menu away and repair the screen under it.
    method DismissMenu()
      requires Ready()
      modifies this`menu, screen
      ensures Ready() && old(Fine()) <= Fine() && Now() == Dismissed(old(Now())) && Inked()
    {
      if !menu.active { return; }
      var r := MenuRect();
      menu := menu.(active := false, highlighted := -1, lit := {});
      Recompose(r);
      Redrawn();
      KeepTitles();
    }

    // The menu changes to m and is redrawn in that area only.
    method ChangeMenu(m: Menu, area: Rect)
      requires Ready() && menu.active && m.active && m.x == menu.x && m.y == menu.y
      modifies this`menu, overlay, screen
      ensures Ready() && old(Fine()) <= Fine() && Now() == old(Now()).(menu := m)
      ensures forall x, y :: g.OnScreen(x, y) && !area.Has(x, y) ==>
        screen[x, y] == old(screen[x, y]) && overlay[x, y] == old(overlay[x, y])
      ensures old(Inked()) && LooksKept(old(menu), m, area) ==> Inked()
    {
      menu := m;
      StampOverlay(area);
      if old(Inked()) && LooksKept(old(menu), m, area) { StillInked(area); }
      CompositeMenuOverlay(area);
      Redrawn();
      KeepTitles();
    }

    // Outside the area two menus look the same.
    ghost predicate LooksKept(m: Menu, n: Menu, area: Rect) {
      forall x, y {:trigger SameLook(g, m, n, x, y)} :: g.OnScreen(x, y) && !area.Has(x, y) ==> SameLook(g, m, n, x, y)
    }

    // Draw the row of item i, and show it.
    method DrawRow(i: int)
      requires Ready() && menu.active && 0 <= i
      modifies this`menu, overlay, screen
      ensures Ready() && old(Fine()) <= Fine() && Now() == old(Now()).(menu := RowDrawn(old(menu), i))
      ensures forall x, y :: g.OnScreen(x, y) && !ItemBox(g, old(menu), i).Has(x, y) ==>
        screen[x, y] == old(screen[x, y]) && overlay[x, y] == old(overlay[x, y])
      ensures old(Inked()) ==> Inked()
    {
      ghost var m, n := menu, RowDrawn(menu, i);
      assert LooksKept(m, n, ItemBox(g, m, i));
      ChangeMenu(RowDrawn(menu, i), ItemBox(g, menu, i));
    }

    // The highlight is recorded; no row is drawn yet.
    method SetHighlight(item: int)
      requires Ready() && menu.active
      modifies this`menu
      ensures Ready() && old(Fine()) <= Fine() && Now() == old(Now()).(menu := old(menu).(highlighted := item))
      ensures old(Inked()) ==> Inked()
    {
      menu := menu.(highlighted := item);
      Redrawn();
      KeepTitles();
      if old(Inked()) { StillInked(Rect(0, 0, 0, 0)); }
    }

    // Move the highlight, redrawing the item it leaves and the one it enters.
    method Highlight(item: int)
      requires Ready() && menu.active
      modifies this`menu, overlay, screen
      ensures Ready() && old(Fine()) <= Fine()
      ensures Now() == old(Now()).(menu := Highlighted(old(menu), item))
      ensures forall x, y :: g.OnScreen(x, y) && !ItemBox(g, menu, old(menu).highlighted).Has(x, y)
                             && !ItemBox(g, menu, item).Has(x, y) ==>
        screen[x, y] == old(screen[x, y]) && overlay[x, y] == old(overlay[x, y])
      ensures old(Inked()) ==> Inked()
    {
      if item == menu.highlighted { return; }
      var before := menu.highlighted;
      SetHighlight(item);
      RedrawRows(before, item);
    }

    method RedrawRows(i: int, j: int)
      requires Ready() && menu.active
      modifies this`menu, overlay, screen
      ensures Ready() && old(Fine()) <= Fine()
      ensures Now() == old(Now()).(menu := RowDrawn(RowDrawn(old(menu), i), j))
      ensures forall x, y :: g.OnScreen(x, y) && !ItemBox(g, old(menu), i).Has(x, y) && !ItemBox(g, old(menu), j).Has(x, y) ==>
        screen[x, y] == old(screen[x, y]) && overlay[x, y] == old(overlay[x, y])
      ensures old(Inked()) ==> Inked()
    {
      RedrawRow(i);
      RedrawRow(j);
    }

    method RedrawRow(i: int)
      requires Ready() && menu.active
      modifies this`menu, overlay, screen
      ensures Ready() && old(Fine()) <= Fine() && Now() == old(Now()).(menu := RowDrawn(old(menu), i))
      ensures forall x, y :: g.OnScreen(x, y) && !ItemBox(g, old(menu), i).Has(x, y) ==>
        screen[x, y] == old(screen[x, y]) && overlay[x, y] == old(overlay[x, y])
      ensures old(Inked()) ==> Inked()
    {
      if i >= 0 { DrawRow(i); }
    }

    // The menu is pinned: draw its pin.
    method Pin()
      requires Ready() && menu.active
      modifies this`menu, overlay, screen
      ensures Ready() && old(Fine()) <= Fine() && Now() == old(Now()).(menu := old(menu).(pinned := true))
      ensures old(Inked()) ==> Inked()
    {
      ghost var m, n := menu, menu.(pinned := true);
      assert LooksKept(m, n, PinBox(m));
      ChangeMenu(menu.(pinned := true), PinBox(menu));
    }

    // ---------- outlines ----------

    method DrawOutline(r: Rect)
      requires Placed() && r.Inside(g.fbW, g.fbH) && r.w >= OUTLINE && r.h >= OUTLINE
      modifies screen
      ensures forall x, y :: g.OnScreen(x, y) ==>
        screen[x, y] == if OnOutline(r, x, y) then OUTLINE_COLOR else old(screen[x, y])
    {
      FillScreen(Rect(r.x, r.y, r.w, OUTLINE), OUTLINE_COLOR);
      FillScreen(Rect(r.x, r.y + r.h - OUTLINE, r.w, OUTLINE), OUTLINE_COLOR);
      FillScreen(Rect(r.x, r.y, OUTLINE, r.h), OUTLINE_COLOR);
      FillScreen(Rect(r.x + r.w - OUTLINE, r.y, OUTLINE, r.h), OUTLINE_COLOR);
    }

    method EraseOutline(r: Rect)
      requires Placed() && r.Inside(g.fbW, g.fbH) && r.w >= OUTLINE && r.h >= OUTLINE
      modifies screen
      ensures old(Fine()) <= Fine()
      ensures forall x, y :: g.OnScreen(x, y) ==>
        screen[x, y] == if OnOutline(r, x, y) then Visible(x, y) else old(screen[x, y])
    {
      RecomposeBoth(Rect(r.x, r.y, r.w, OUTLINE), Rect(r.x, r.y + r.h - OUTLINE, r.w, OUTLINE));
      RecomposeBoth(Rect(r.x, r.y, OUTLINE, r.h), Rect(r.x + r.w - OUTLINE, r.y, OUTLINE, r.h));
    }

    method RecomposeBoth(r: Rect, s: Rect)
      requires Placed() && r.Inside(g.fbW, g.fbH) && s.Inside(g.fbW, g.fbH)
      modifies screen
      ensures old(Fine()) <= Fine()
      ensures forall x, y :: g.OnScreen(x, y) ==>
        screen[x, y] == if r.Has(x, y) || s.Has(x, y) then Visible(x, y) else old(screen[x, y])
    {
      Recompose(r);
      Recompose(s);
    }

    // Excuses may be traded as long as no pixel that needs one loses it.
    twostate lemma ReExcused()
      requires old(Sized()) && Sized() && Z() == old(Z()) && pos == old(pos) && menu == old(menu)
      requires unchanged(overlay) && forall i :: 0 <= i < |surf| ==> unchanged(surf[i]) && unchanged(surf[i].fb)
      requires forall x, y :: g.OnScreen(x, y) ==>
        (screen[x, y] == old(screen[x, y]) || Excused(x, y)) && (old(Excused(x, y)) ==> Excused(x, y) || Right(x, y))
      ensures old(Fine()) <= Fine()
    {
      forall p: Point | p in old(Fine())
        ensures p in Fine()
      {
        PixelKept(p.x, p.y);
      }
    }

    // ---------- dragging windows ----------

    // The new outline is drawn, the old one erased unless it is forgotten, and that is all.
    twostate predicate Outlined(forgets: bool)
      requires old(Sized()) && Sized()
      reads this`zCount, this`types, this`pos, this`titles, this`menu, this`drag, windowZ, overlay, stores, screen
    {
      forall x, y :: g.OnScreen(x, y) ==>
        screen[x, y] == if drag.active && OnOutline(DragRect(), x, y) then OUTLINE_COLOR
                        else if !forgets && old(drag.active && OnOutline(DragRect(), x, y)) then Visible(x, y)
                        else old(screen[x, y])
    }

    // Taking hold of window w forgets an outline that is somewhere else.
    predicate Forgets(w: int)
      requires 1 <= w <= |pos|
      reads this`drag, this`pos
    {
      drag.active && drag.out != pos[w - 1]
    }

    // Take hold of window w.  An outline still on screen from another drag is forgotten, unless
    // the new one is drawn over it.
    method StartDrag(w: int, e: Event)
      requires Ready() && 1 <= w <= g.slots && (drag.active ==> Fits(drag.out, g.UW(), g.UH(), g))
      modifies this`drag, this`smears, screen
      ensures Ready() && old(Fine()) <= Fine() && Now() == Grabbed(old(Now()), g, w, e)
      ensures smears == old(smears) + if old(Forgets(w)) then [Forgotten(old(DragRect()))] else []
      ensures Outlined(true)
    {
      if Forgets(w) { smears := smears + [Forgotten(DragRect())]; }
      drag := Drag(true, w, Point(e.x, e.y), pos[w - 1], pos[w - 1]);
      DrawOutline(DragRect());
      StartExcuses(pos[w - 1]);
      KeepTitles();
    }

    twostate lemma StartExcuses(new now: Point)
      requires old(Sized()) && Sized() && Z() == old(Z()) && pos == old(pos) && menu == old(menu)
      requires unchanged(overlay) && forall i :: 0 <= i < |surf| ==> unchanged(surf[i]) && unchanged(surf[i].fb)
      requires menuDrag == old(menuDrag) && drag.active && drag.out == now
      requires smears == old(smears) + if old(drag.active && drag.out != now) then [Forgotten(old(DragRect()))] else []
      requires forall x, y :: g.OnScreen(x, y) ==> screen[x, y] == old(screen[x, y]) || OnOutline(DragRect(), x, y)
      ensures old(Fine()) <= Fine()
    {
      forall x, y | g.OnScreen(x, y) && old(Excused(x, y))
        ensures Excused(x, y)
      {
        if old(drag.active && drag.out != now && OnOutline(DragRect(), x, y)) {
          assert smears[|old(smears)|] == Forgotten(old(DragRect()));
          assert Forgotten(old(DragRect())) in smears && Forgotten(old(DragRect())).Has(x, y);
        } else if old(Unflushed(x, y)) {
          PixelKept(x, y);
        } else if s :| s in old(smears) && s.Has(x, y) {
          assert s in smears;
        }
      }
      ReExcused();
    }

    // The held window's outline follows the pointer; the window stays.
    method MoveDrag(e: Event)
      requires Ready() && drag.active && Fits(drag.out, g.UW(), g.UH(), g)
      modifies this`drag, screen
      ensures Ready() && old(Fine()) <= Fine()
      ensures Now() == old(Now()).(drag := old(drag).(out := OutlineAt(old(drag), e.x, e.y, g.UW(), g.UH(), g)))
      ensures drag.out != old(drag).out ==> Outlined(false)
    {
      var out := OutlineAt(drag, e.x, e.y, g.UW(), g.UH(), g);
      if out == drag.out { return; }
      EraseOutline(DragRect());
      ShiftDrag(out);
    }

    // The old outline is gone; draw it at its new place.
    method ShiftDrag(out: Point)
      requires Ready() && drag.active && Fits(out, g.UW(), g.UH(), g)
      requires forall x, y :: g.OnScreen(x, y) && OnOutline(DragRect(), x, y) ==> Right(x, y)
      modifies this`drag, screen
      ensures Ready() && old(Fine()) <= Fine() && drag == old(drag).(out := out)
      ensures forall x, y :: g.OnScreen(x, y) ==>
        screen[x, y] == if OnOutline(DragRect(), x, y) then OUTLINE_COLOR else old(screen[x, y])
    {
      drag := drag.(out := out);
      DrawOutline(DragRect());
      ReExcused();
      KeepTitles();
    }

    method RecomposeFullScreen()
      requires Placed()
      modifies screen
      ensures forall x, y :: g.OnScreen(x, y) ==> Right(x, y)
    {
      Recompose(Rect(0, 0, g.fbW, g.fbH));
    }

    // Let go: the window jumps to its outline.
    method DropDrag()
      requires Ready() && drag.active && 1 <= drag.wid <= g.slots && Fits(drag.out, g.UW(), g.UH(), g)
      modifies this`drag, this`pos, this`smears, screen
      ensures Ready() && old(Fine()) <= Fine() && Now() == Dropped(old(Now()), g)
      ensures smears == if old(drag.out != pos[drag.wid - 1]) then [] else old(smears)
      ensures old(drag.out != pos[drag.wid - 1]) ==> forall x, y :: g.OnScreen(x, y) ==> Right(x, y)
      ensures old(drag.out == pos[drag.wid - 1]) ==> Outlined(false)
    {
      if drag.out == pos[drag.wid - 1] {
        assert pos[drag.wid - 1 := drag.out] == pos;
        LetGo();
      } else {
        DropMoved();
      }
    }

    method DropMoved()
      requires Ready() && drag.active && 1 <= drag.wid <= g.slots && Fits(drag.out, g.UW(), g.UH(), g)
      modifies this`drag, this`pos, this`smears, screen
      ensures Ready() && old(Fine()) <= Fine() && Now() == Dropped(old(Now()), g)
      ensures smears == [] && forall x, y :: g.OnScreen(x, y) ==> Right(x, y)
    {
      var out, i := drag.out, drag.wid - 1;
      LetGo();
      JumpTo(i, out);
    }

    // The outline goes and nothing is held any more.
    method LetGo()
      requires Ready() && drag.active && Fits(drag.out, g.UW(), g.UH(), g)
      modifies this`drag, screen
      ensures Ready() && old(Fine()) <= Fine() && drag == old(drag).(active := false)
      ensures Outlined(false)
    {
      EraseOutline(DragRect());
      EndDrag();
    }

    // Move a window; the whole screen is composited again, which removes every smear.
    method JumpTo(i: int, p: Point)
      requires Ready() && 0 <= i < g.slots && Fits(p, g.UW(), g.UH(), g)
      modifies this`pos, this`smears, screen
      ensures Ready() && old(Fine()) <= Fine() && pos == old(pos)[i := p]
      ensures smears == [] && forall x, y :: g.OnScreen(x, y) ==> Right(x, y)
    {
      pos := pos[i := p];
      RecomposeFullScreen();
      smears := [];
      KeepTitles();
      assert old(Fine()) <= Fine() by { RightIsFine(); }
    }

    lemma RightIsFine()
      requires Sized() && forall x, y :: g.OnScreen(x, y) ==> Right(x, y)
      ensures forall p: Point :: g.OnScreen(p.x, p.y) ==> p in Fine()
    {
    }

    method EndDrag()
      requires Ready() && drag.active
      requires forall x, y :: g.OnScreen(x, y) && OnOutline(DragRect(), x, y) ==> Right(x, y)
      modifies this`drag
      ensures Ready() && old(Fine()) <= Fine() && drag == old(drag).(active := false)
    {
      drag := drag.(active := false);
      ReExcused();
      KeepTitles();
    }

    // ---------- dragging the menu ----------

    method StartMenuDrag(e: Event)
      requires Ready() && !menuDrag.active
      modifies this`menuDrag, screen
      ensures Ready() && old(Fine()) <= Fine()
      ensures var at := Point(menu.x, menu.y);
              Now() == old(Now()).(menuDrag := Drag(true, 0, Point(e.x, e.y), at, at))
    {
      var at := Point(menu.x, menu.y);
      menuDrag := Drag(true, 0, Point(e.x, e.y), at, at);
      DrawOutline(MenuDragRect());
      ReExcused();
      KeepTitles();
    }

    method MoveMenuDrag(e: Event)
      requires Ready() && menuDrag.active && Fits(menuDrag.out, g.menuW, g.MenuH(), g)
      modifies this`menuDrag, screen
      ensures Ready() && old(Fine()) <= Fine()
      ensures Now() == old(Now()).(menuDrag :=
                old(menuDrag).(out := OutlineAt(old(menuDrag), e.x, e.y, g.menuW, g.MenuH(), g)))
    {
      var out := OutlineAt(menuDrag, e.x, e.y, g.menuW, g.MenuH(), g);
      if out == menuDrag.out { return; }
      EraseOutline(MenuDragRect());
      ShiftMenuDrag(out);
    }

    // The old outline is gone; draw it at its new place.
    method ShiftMenuDrag(out: Point)
      requires Ready() && menuDrag.active && Fits(out, g.menuW, g.MenuH(), g)
      requires forall x, y :: g.OnScreen(x, y) && OnOutline(MenuDragRect(), x, y) ==> Right(x, y)
      modifies this`menuDrag, screen
      ensures Ready() && old(Fine()) <= Fine() && menuDrag == old(menuDrag).(out := out)
    {
      menuDrag := menuDrag.(out := out);
      DrawOutline(MenuDragRect());
      ReExcused();
      KeepTitles();
    }

    method EndMenuDrag()
      requires Ready() && menuDrag.active
      requires forall x, y :: g.OnScreen(x, y) && OnOutline(MenuDragRect(), x, y) ==> Right(x, y)
      modifies this`menuDrag
      ensures Ready() && old(Fine()) <= Fine() && menuDrag == old(menuDrag).(active := false)
    {
      menuDrag := menuDrag.(active := false);
      ReExcused();
      KeepTitles();
    }

    // Draw the menu at a new place.  The code does so whether or not the menu still shows: a
    // menu that was dismissed while it was dragged comes back as a ghost.
    method MoveMenu(p: Point)
      requires Ready() && Fits(p, g.menuW, g.MenuH(), g)
      modifies this`menu, this`smears, overlay, screen
      ensures Ready() && old(Fine()) <= Fine()
      ensures Now() == old(Now()).(menu := old(menu).(x := p.x, y := p.y, lit := Shining(old(menu))))
      ensures smears == old(smears) + if menu.active then [] else [Ghost(MenuRect())]
      ensures MenuDrawn() && Inked()
    {
      RedrawMenuAt(p);
      KeepTitles();
    }

    method RedrawMenuAt(p: Point)
      requires Placed() && Fits(p, g.menuW, g.MenuH(), g)
      modifies this`menu, this`smears, overlay, screen
      ensures Placed() && old(Fine()) <= Fine() && menu == old(menu).(x := p.x, y := p.y, lit := Shining(old(menu)))
      ensures smears == old(smears) + if menu.active then [] else [Ghost(MenuRect())]
      ensures MenuDrawn() && Inked()
    {
      var r := MenuRect();
      menu := menu.(x := p.x, y := p.y, lit := Shining(menu));
      if !menu.active { smears := smears + [Ghost(MenuRect())]; }
      RepaintMenu(r);
      assert !menu.active ==> smears[|smears| - 1] == Ghost(MenuRect()) && Ghost(MenuRect()) in smears;
      Redrawn();
    }

    // Draw the menu where it is now, and what is beneath where it was.
    method RepaintMenu(r: Rect)
      requires Placed() && r.Inside(g.fbW, g.fbH)
      modifies overlay, screen
      ensures forall x, y :: g.OnScreen(x, y) ==>
        screen[x, y] == if MenuRect().Has(x, y) then overlay[x, y] else if r.Has(x, y) then Visible(x, y) else old(screen[x, y])
      ensures forall x, y :: g.OnScreen(x, y) && !MenuRect().Has(x, y) ==> overlay[x, y] == old(overlay[x, y])
      ensures MenuDrawn() && Inked()
    {
      DrawMenu();
      Recompose(r);
      CompositeMenuOverlay(MenuRect());
    }

    method DropMenuDrag()
      requires Ready() && menuDrag.active && Fits(menuDrag.out, g.menuW, g.MenuH(), g)
      modifies this`menu, this`menuDrag, this`smears, overlay, screen
      ensures Ready() && old(Fine()) <= Fine()
      ensures Now() == old(Now()).(
                menu := MenuAt(old(menu), old(menuDrag).out),
                menuDrag := old(menuDrag).(active := false))
      ensures smears == old(smears) +
        if old(menu.active || menuDrag.out == Point(menu.x, menu.y)) then [] else [Ghost(MenuRect())]
      ensures old(menuDrag.out != Point(menu.x, menu.y)) ==> MenuDrawn()
      ensures old(Inked()) ==> Inked()
    {
      var out := menuDrag.out;
      EraseOutline(MenuDragRect());
      EndMenuDrag();
      if out.x != menu.x || out.y != menu.y {
        MoveMenu(out);
      }
    }

    // ---------- pointer events ----------

    // The topmost window under the pointer, searching the stack from the top.
    method TopmostWindowAt(px: int, py: int) returns (t: int)
      requires Sized()
      ensures t == Top(px, py)
    {
      var z := zCount - 1;
      assert windowZ[..z + 1] == Z();
      while z >= 0
        invariant -1 <= z < zCount
        invariant TopAt(windowZ[..z + 1], pos, g, px, py) == Top(px, py)
      {
        t := windowZ[z];
        assert windowZ[..z + 1][..z] == windowZ[..z];
        if 1 <= t <= g.slots && Rect(pos[t - 1].x, pos[t - 1].y, g.UW(), g.UH()).Has(px, py) {
          return;
        }
        z := z - 1;
      }
      t := 0;
    }

    method Emit(m: Sent)
      requires Ready()
      modifies this`sent
      ensures Ready() && Fine() == old(Fine()) && Now() == old(Now()).(sent := old(sent) + [m])
    {
      sent := sent + [m];
      SameFine();
      KeepTitles();
    }

    method SelectItem(i: int)
      requires Ready() && menu.active && 0 <= i < g.items
      modifies this`menu, this`sent, overlay, screen
      ensures Ready() && old(Fine()) <= Fine() && Now() == Selected(old(Now()), g, i)
      ensures old(Inked()) ==> Inked()
    {
      if i == g.items - 1 {
        DismissMenu();
        Emit(Shutdown);
        return;
      }
      if menu.pinned {
        SetHighlight(-1);
        DrawRow(i);
      } else {
        DismissMenu();
      }
      Emit(Spawn(i));
    }

    // The menu owns the cursor.
    method MenuEvent(e: Event)
      requires Ready() && menu.active && !menuDrag.active
      modifies this`menu, this`menuDrag, this`sent, overlay, screen
      ensures Ready() && old(Fine()) <= Fine() && Now() == MenuHandled(old(Now()), g, e)
      ensures old(Inked()) ==> Inked()
    {
      if e.kind == Motion {
        Highlight(ItemAt(Now(), g, e.x, e.y));
        return;
      }
      if e.kind != Down || e.button != Left { return; }
      if PinRect(Now()).Has(e.x, e.y) {
        if menu.pinned {
          DismissMenu();
        } else {
          Pin();
        }
        return;
      }
      var hit := ItemAt(Now(), g, e.x, e.y);
      if hit >= 0 {
        SelectItem(hit);
      } else if menu.pinned && OnMenuTitle(Now(), g, e.x, e.y) {
        StartMenuDrag(e);
      } else if !menu.pinned {
        DismissMenu();
      }
    }

    // A left press on window t, once it is raised.
    method PressRaised(t: int, e: Event) returns (consumed: bool)
      requires Ready() && 1 <= t <= g.slots && (drag.active ==> Fits(drag.out, g.UW(), g.UH(), g))
      modifies this`drag, this`smears, this`bar, this`elev, this`sent, screen, stores
      ensures Ready() && old(Fine()) <= Fine() && (consumed, Now()) == RaisedPress(old(Now()), g, t, e)
      ensures old(Forgets(t) && TitleHit(Now(), g, t, e.x, e.y)) ==> smears == old(smears) + [Forgotten(old(DragRect()))]
      ensures !old(Forgets(t) && TitleHit(Now(), g, t, e.x, e.y)) ==> smears == old(smears)
      ensures old(TitleHit(Now(), g, t, e.x, e.y)) ==> Outlined(true)
    {
      if TitleHit(Now(), g, t, e.x, e.y) {
        StartDrag(t, e);
        return true;
      }
      var hit := BarHit(Now(), g, t, e.x, e.y);
      if hit != Miss { PressBar(t, hit, e.y); }
      return hit != Miss;
    }

    method RaiseAndPress(t: int, e: Event) returns (consumed: bool)
      requires Valid() && Titled() && 1 <= t <= g.slots
      modifies this`focused, this`drag, this`smears, this`bar, this`elev, this`sent, windowZ, screen, stores
      ensures Ready() && old(Fine()) <= Fine()
      ensures (consumed, Now()) == RaisedPress(Raised(old(Now()), t), g, t, e)
      ensures old(Forgets(t) && TitleHit(Now(), g, t, e.x, e.y)) ==> smears == old(smears) + [Forgotten(old(DragRect()))]
      ensures !old(Forgets(t) && TitleHit(Now(), g, t, e.x, e.y)) ==> smears == old(smears)
      ensures old(t == focused && OnTop(t) && TitleHit(Now(), g, t, e.x, e.y)) ==> Outlined(true)
    {
      RaiseWindow(t);
      consumed := PressRaised(t, e);
    }

    // A left press on window t, not on its menu button.
    method PressWindow(t: int, e: Event) returns (consumed: bool)
      requires Valid() && Titled() && e.kind == Down && e.button == Left
      requires t == Top(e.x, e.y) && t != 0 && !ButtonHit(Now(), g, t, e.x, e.y)
      modifies this`focused, this`drag, this`smears, this`bar, this`elev, this`sent, windowZ, screen, stores
      ensures Ready() && old(Fine()) <= Fine()
      ensures (consumed, Now()) == LeftDown(old(Now()), g, e)
      ensures smears == WindowSmears(old(smears), old(Now()), g, e)
      ensures old(PressesTop(Now(), g, e)) ==> Outlined(true)
    {
      ghost var again, top := PressGrabsAgain(Now(), g, e), PressesTop(Now(), g, e);
      PressSmears(smears, Now(), g, e);
      assert again <==> Forgets(t) && TitleHit(Now(), g, t, e.x, e.y);
      assert top ==> t == focused && OnTop(t) && TitleHit(Now(), g, t, e.x, e.y);
      consumed := RaiseAndPress(t, e);
    }

    // A left press on the menu button of window t closes it.
    method PressButton(t: int, ghost e: Event)
      requires Valid() && Titled() && e.kind == Down && e.button == Left
      requires t == Top(e.x, e.y) && t != 0 && ButtonHit(Now(), g, t, e.x, e.y)
      modifies this`zCount, this`types, this`kbd, this`ptr, this`focused, windowZ, screen, stores
      ensures Ready() && old(Fine()) <= Fine()
      ensures (true, Now()) == LeftDown(old(Now()), g, e) && smears == WindowSmears(smears, old(Now()), g, e)
    {
      PressSmears(smears, Now(), g, e);
      WindowTeardown(t);
    }

    // A left press over the windows.
    method LeftPress(e: Event) returns (consumed: bool)
      requires Valid() && Titled() && e.kind == Down && e.button == Left
      modifies this`zCount, this`types, this`kbd, this`ptr, this`focused, windowZ, screen, stores
      modifies this`drag, this`smears, this`bar, this`elev, this`sent
      ensures Ready() && old(Fine()) <= Fine()
      ensures (consumed, Now()) == LeftDown(old(Now()), g, e)
      ensures smears == WindowSmears(old(smears), old(Now()), g, e)
      ensures old(PressesTop(Now(), g, e)) ==> Outlined(true)
    {
      var t := TopmostWindowAt(e.x, e.y);
      if t == 0 {
        PressSmears(smears, Now(), g, e);
        consumed := false;
      } else if ButtonHit(Now(), g, t, e.x, e.y) {
        PressButton(t, e);
        consumed := true;
      } else {
        consumed := PressWindow(t, e);
      }
    }

    // Events that no menu takes.
    method WindowsEvent(e: Event) returns (consumed: bool)
      requires Valid() && Titled()
      modifies this, windowZ, screen, overlay, stores
      ensures Ready() && old(Fine()) <= Fine()
      ensures (consumed, Now()) == WindowsHandled(old(Now()), g, e)
      ensures smears == WindowSmears(old(smears), old(Now()), g, e)
      ensures old(Idle(Now()) && OnlyOutlines(Now(), g, e)) ==> Outlined(e.kind == Down)
      ensures old(Inked()) ==> Inked()
    {
      if e.kind == Down && (e.button == Button.Right || e.button == Middle) {
        consumed := MenuPress(e);
      } else {
        consumed := HoldEvent(e);
      }
    }

    // Presses, motions and releases that take hold of windows and let them go.
    method HoldEvent(e: Event) returns (consumed: bool)
      requires Valid() && Titled() && !(e.kind == Down && (e.button == Button.Right || e.button == Middle))
      modifies this`zCount, this`types, this`kbd, this`ptr, this`focused, this`pos, windowZ, screen, stores
      modifies this`drag, this`smears, this`bar, this`elev, this`sent
      ensures Ready() && old(Fine()) <= Fine()
      ensures (consumed, Now()) == WindowsHandled(old(Now()), g, e)
      ensures smears == WindowSmears(old(smears), old(Now()), g, e)
      ensures old(Idle(Now()) && OnlyOutlines(Now(), g, e)) ==> Outlined(e.kind == Down)
    {
      if e.kind == Motion {
        consumed := WindowsMotion(e);
      } else if e.kind == Down && e.button == Left {
        consumed := LeftPress(e);
      } else if e.kind == Up && e.button == Left {
        consumed := WindowsRelease(e);
      } else {
        consumed := false;
      }
    }

    // The other buttons summon the menu over the workspace.
    method MenuPress(e: Event) returns (consumed: bool)
      requires Ready() && e.kind == Down && (e.button == Button.Right || e.button == Middle)
      modifies this`menu, overlay, screen
      ensures Ready() && old(Fine()) <= Fine()
      ensures (consumed, Now()) == WindowsHandled(old(Now()), g, e)
      ensures old(Inked()) ==> Inked()
    {
      var t := TopmostWindowAt(e.x, e.y);
      consumed := t == 0;
      if consumed { ShowMenu(e.x, e.y); }
    }

    method WindowsMotion(e: Event) returns (consumed: bool)
      requires Valid() && Titled() && e.kind == Motion
      modifies this`drag, this`bar, this`elev, this`sent, screen, stores
      ensures Ready() && old(Fine()) <= Fine()
      ensures (consumed, Now()) == WindowsHandled(old(Now()), g, e) && smears == old(smears)
      ensures old(Idle(Now()) && OnlyOutlines(Now(), g, e)) ==> Outlined(false)
    {
      if bar.dragging {
        DragBar(e.y);
        return true;
      }
      if !drag.active { return false; }
      MoveDrag(e);
      return true;
    }

    method WindowsRelease(e: Event) returns (consumed: bool)
      requires Valid() && Titled() && e.kind == Up && e.button == Left
      modifies this`drag, this`pos, this`smears, this`bar, this`elev, this`sent, screen, stores
      ensures Ready() && old(Fine()) <= Fine()
      ensures (consumed, Now()) == WindowsHandled(old(Now()), g, e)
      ensures smears == WindowSmears(old(smears), old(Now()), g, e)
      ensures old(Idle(Now()) && OnlyOutlines(Now(), g, e)) ==> Outlined(false)
    {
      if bar.dragging || bar.arrow != 0 || bar.anchor != 0 {
        ReleaseBar();
        return true;
      }
      if drag.active {
        DropDrag();
        return true;
      }
      return false;
    }

    // A held menu follows the pointer and swallows everything else.
    method MenuDragEvent(e: Event)
      requires Ready() && menuDrag.active && Fits(menuDrag.out, g.menuW, g.MenuH(), g)
      modifies this`menu, this`menuDrag, this`smears, overlay, screen
      ensures Ready() && old(Fine()) <= Fine() && Now() == MenuDragged(old(Now()), g, e)
      ensures old(Inked()) ==> Inked()
      ensures smears == SmearsAfter(old(smears), old(Now()), g, e)
      ensures old(DropsGhost(Now(), e)) ==> MenuDrawn()
    {
      if e.kind == Motion {
        MoveMenuDrag(e);
      } else if e.kind == Up && e.button == Left {
        DropMenuDrag();
      }
    }

    // The window manager's own part of an event; the result says whether it consumes it.
    method HandlePointer(e: Event) returns (consumed: bool)
      requires Valid() && Titled()
      modifies this, windowZ, screen, overlay, stores
      ensures Valid() && Titled() && old(Fine()) <= Fine()
      ensures (consumed, Now()) == Handled(old(Now()), g, e)
      ensures old(Inked()) ==> Inked()
      ensures smears == SmearsAfter(old(smears), old(Now()), g, e)
      ensures old(Idle(Now()) && OnlyOutlines(Now(), g, e)) ==> Outlined(e.kind == Down)
      ensures old(DropsGhost(Now(), e)) ==> MenuDrawn()
    {
      HandledOk(Now(), g, e);
      if menuDrag.active || MenuOwns(Now(), g, e) {
        MenuTakes(e);
        return true;
      }
      consumed := PastMenu(e);
    }

    // The menu takes the event.
    method MenuTakes(e: Event)
      requires Valid() && Titled() && (menuDrag.active || MenuOwns(Now(), g, e))
      modifies this`menu, this`menuDrag, this`sent, this`smears, overlay, screen
      ensures Ready() && old(Fine()) <= Fine()
      ensures (true, Now()) == Handled(old(Now()), g, e) && smears == SmearsAfter(old(smears), old(Now()), g, e)
      ensures old(Inked()) ==> Inked()
      ensures old(DropsGhost(Now(), e)) ==> MenuDrawn()
    {
      if menuDrag.active {
        MenuDragEvent(e);
      } else {
        MenuEvent(e);
      }
    }

    // No menu takes the event.
    method PastMenu(e: Event) returns (consumed: bool)
      requires Valid() && Titled() && !menuDrag.active && !MenuOwns(Now(), g, e)
      modifies this, windowZ, screen, overlay, stores
      ensures Ready() && old(Fine()) <= Fine()
      ensures (consumed, Now()) == Handled(old(Now()), g, e)
      ensures old(Inked()) ==> Inked()
      ensures smears == SmearsAfter(old(smears), old(Now()), g, e)
      ensures old(Idle(Now()) && OnlyOutlines(Now(), g, e)) ==> Outlined(e.kind == Down)
    {
      if menu.active && e.kind == Motion && menu.highlighted >= 0 {
        LoseHighlight();
      }
      consumed := WindowsEvent(e);
    }

    // The pointer has left a pinned menu.
    method LoseHighlight()
      requires Valid() && Titled() && menu.active
      modifies this`menu, overlay, screen
      ensures Valid() && Titled() && old(Fine()) <= Fine()
      ensures Now() == old(Now()).(menu := Highlighted(old(menu), -1))
      ensures old(Inked()) ==> Inked()
    {
      ghost var d := Now();
      Highlight(-1);
      MenuOk(d, Now(), g);
    }

    // Pass an event on to the focused window's subscriber.
    method Forward(e: Event)
      requires Valid() && Titled()
      modifies this`sent
      ensures Valid() && Titled() && Fine() == old(Fine()) && Now() == Forwarded(old(Now()), g, e)
    {
      MenuOk(Now(), Forwarded(Now(), g, e), g);
      var w := focused;
      if w < 1 || w > g.slots { return; }
      var cx, cy := e.x - pos[w - 1].x - CONTENT_X, e.y - pos[w - 1].y - CONTENT_Y;
      if cx < 0 || cx >= g.CW() || cy < 0 || cy >= g.CH() { return; }
      if ptr[w - 1] == 0 { return; }
      Emit(Pointer(ptr[w - 1], e.kind, cx, cy, e.button, e.state));
    }

    method DispatchPointerEvent(e: Event)
      requires Valid() && Titled()
      modifies this, windowZ, screen, overlay, stores
      ensures Valid() && Titled() && old(Fine()) <= Fine()
      ensures Now() == Dispatched(old(Now()), g, e)
      ensures smears == SmearsAfter(old(smears), old(Now()), g, e)
      ensures old(Inked()) ==> Inked()
    {
      var consumed := HandlePointer(e);
      if !consumed { Forward(e); }
    }

    // An event that the window manager consumes goes no further.
    method DispatchConsumed(e: Event)
      requires Valid() && Titled() && Handled(Now(), g, e).0
      modifies this, windowZ, screen, overlay, stores
      ensures Valid() && Titled() && old(Fine()) <= Fine()
      ensures Now() == Dispatched(old(Now()), g, e)
      ensures smears == SmearsAfter(old(smears), old(Now()), g, e)
      ensures old(Idle(Now()) && OnlyOutlines(Now(), g, e)) ==> Outlined(e.kind == Down)
      ensures old(DropsGhost(Now(), e)) ==> MenuDrawn()
      ensures old(Inked()) ==> Inked()
    {
      var _ := HandlePointer(e);
    }

    // Apply a held-back motion.
    method FlushMotion(p: Pending)
      requires Valid() && Titled()
      modifies this, windowZ, screen, overlay, stores
      ensures Valid() && Titled() && old(Fine()) <= Fine() && Now() == Flushed(old(Now()), g, p)
      ensures old(Inked()) ==> Inked()
      ensures smears == old(smears)
    {
      if p.Pending? {
        var _ := HandlePointer(Event(Motion, p.x, p.y, NoButton, 0));
      }
    }

    // Drain the pointer queue, keeping only the latest of a run of drag motions.
    method PollPointerEvents(q: seq<Event>)
      requires Valid() && Titled()
      modifies this, windowZ, screen, overlay, stores
      ensures Valid() && Titled() && old(Fine()) <= Fine()
      ensures Now() == Drained(old(Now()), g, q, NoMotion)
      ensures old(Inked()) ==> Inked()
      ensures smears == SmearsDrained(old(smears), old(Now()), g, q, NoMotion)
    {
      ghost var before, d, s := Fine(), Now(), smears;
      var pending, i := NoMotion, 0;
      assert q[0..] == q;
      while i < |q|
        invariant 0 <= i <= |q| && Valid() && Titled() && before <= Fine()
        invariant Drained(Now(), g, q[i..], pending) == Drained(d, g, q, NoMotion)
        invariant SmearsDrained(smears, Now(), g, q[i..], pending) == SmearsDrained(s, d, g, q, NoMotion)
        invariant old(Inked()) ==> Inked()
      {
        assert q[i..][1..] == q[i + 1..];
        pending := TakeEvent(pending, q[i], q[i..]);
        i := i + 1;
      }
      FlushMotion(pending);
    }

    // Take the first event e of the queue: hold back a drag motion, handle anything else after
    // the motion held back before it.
    method TakeEvent(p: Pending, e: Event, ghost q: seq<Event>) returns (p': Pending)
      requires Valid() && Titled() && q != [] && q[0] == e
      modifies this, windowZ, screen, overlay, stores
      ensures Valid() && Titled() && old(Fine()) <= Fine()
      ensures Drained(Now(), g, q[1..], p') == Drained(old(Now()), g, q, p)
      ensures old(Inked()) ==> Inked()
      ensures SmearsDrained(smears, Now(), g, q[1..], p') == SmearsDrained(old(smears), old(Now()), g, q, p)
    {
      if Held(Now(), e) {
        return Pending(e.x, e.y);
      }
      FlushMotion(p);
      DispatchPointerEvent(e);
      p' := NoMotion;
    }

    // ---------- keys, subscriptions, titles ----------

    method HandleKey(code: int, mods: int)
      requires Ready()
      modifies this`menu, this`sent, screen
      ensures Ready() && old(Fine()) <= Fine() && Now() == KeyHandled(old(Now()), g, code, mods)
      ensures old(Inked()) ==> Inked()
    {
      if menu.active {
        if code == ESCAPE {
          DismissMenu();
          return;
        }
        if !menu.pinned { return; }
      }
      if focused < 1 || focused > g.slots { return; }
      if kbd[focused - 1] == 0 { return; }
      Emit(Key(kbd[focused - 1], code, mods));
    }

    method SubscribeKeys(who: int)
      requires Ready()
      modifies this`kbd
      ensures Ready() && Fine() == old(Fine()) && Now() == KbdSubscribed(old(Now()), g, who)
    {
      if focused < 1 || focused > g.slots { return; }
      kbd := kbd[focused - 1 := who];
      SameFine();
      KeepTitles();
    }

    method SubscribePointer(who: int)
      requires Ready()
      modifies this`ptr
      ensures Ready() && Fine() == old(Fine()) && Now() == PtrSubscribed(old(Now()), g, who)
    {
      if focused < 1 || focused > g.slots { return; }
      ptr := ptr[focused - 1 := who];
      SameFine();
      KeepTitles();
    }

    // The first live window's number; 0 when there is none.
    function FirstLive(i: nat): int
      requires i <= |types|
      reads this`types
      decreases |types| - i
    {
      if i == |types| then 0 else if types[i] != FREE then i + 1 else FirstLive(i + 1)
    }

    // The window that a title request means: 0 stands for the first live one.
    function TitleTarget(wid: int): int
      reads this`types
    {
      if wid == 0 then FirstLive(0) else wid
    }

    predicate TitleAccepted(wid: int, text: string, fetched: bool)
      reads this`types
    {
      1 <= TitleTarget(wid) <= |types| && types[TitleTarget(wid) - 1] != FREE && |text| <= g.cols && (text == "" || fetched)
    }

    // WM_OP_SET_TITLE.  The flag says whether the client's text could be fetched.
    method HandleSetTitle(wid: int, text: string, fetched: bool)
      requires Ready()
      modifies this`titles, screen, stores
      ensures Ready() && old(Fine()) <= Fine() && Now() == old(Now())
      ensures var w, ok := TitleTarget(wid), TitleAccepted(wid, text, fetched);
              && titles == (if ok then old(titles)[w - 1 := text] else old(titles))
              && (ok ==> TitleShown(w)) && (!ok ==> unchanged(screen))
    {
      var w := wid;
      if w == 0 { w := FindLive(); }
      if w < 1 || w > g.slots { return; }
      if types[w - 1] == FREE || |text| > g.cols { return; }
      if |text| > 0 && !fetched { return; }
      Retitle(w, text);
    }

    method FindLive() returns (w: int)
      requires |types| == g.slots
      ensures w == FirstLive(0)
    {
      w := 0;
      var i := 1;
      while i <= g.slots && w == 0
        invariant 1 <= i && (i <= g.slots + 1 || i == 1)
        invariant FirstLive(0) == if w != 0 || i > g.slots then w else FirstLive(i - 1)
      {
        if types[i - 1] != FREE { w := i; }
        i := i + 1;
      }
    }

    method Retitle(w: int, text: string)
      requires Ready() && 1 <= w <= g.slots
      modifies this`titles, screen, stores
      ensures Ready() && old(Fine()) <= Fine() && titles == old(titles)[w - 1 := text] && TitleShown(w)
    {
      titles := titles[w - 1 := text];
      SameFine();
      PaintTitleBar(w);
      OthersTitled(w);
    }

    // ---------- runs ----------

    // One service request, key or pointer event.
    method Serve(r: Request)
      requires Valid() && Titled() && AllClean()
      modifies this, windowZ, screen, overlay, surf, stores
      ensures Valid() && Titled() && AllClean() && old(Fine()) <= Fine()
      ensures Now() == Served(old(Now()), g, r)
      ensures smears == SmearsDone(old(smears), old(Now()), g, Ask(r))
      ensures old(Inked()) ==> Inked()
    {
      if r.PointerEvent? {
        ServePointer(r.e);
      } else {
        ServeRequest(r);
      }
    }

    method ServeRequest(r: Request)
      requires Valid() && Titled() && AllClean() && !r.PointerEvent?
      modifies this`zCount, this`types, this`pos, this`kbd, this`ptr, this`focused, this`elev, this`content, this`menu
      modifies this`titles, this`sent, windowZ, screen, surf, stores
      ensures Valid() && Titled() && AllClean() && old(Fine()) <= Fine() && Now() == Served(old(Now()), g, r)
      ensures old(Inked()) ==> Inked()
    {
      if r.NewWindow? {
        ServeNew(r.wtype, r.granted);
      } else {
        ServeSmall(r);
      }
    }

    method ServePointer(e: Event)
      requires Valid() && Titled() && AllClean()
      modifies this, windowZ, screen, overlay, stores
      ensures Valid() && Titled() && AllClean() && old(Fine()) <= Fine() && Now() == Dispatched(old(Now()), g, e)
      ensures smears == SmearsAfter(old(smears), old(Now()), g, e)
      ensures old(Inked()) ==> Inked()
    {
      DispatchPointerEvent(e);
    }

    method ServeNew(wtype: int, granted: bool)
      requires Valid() && Titled() && AllClean()
      modifies this`types, this`pos, this`zCount, this`focused, this`titles, this`elev, windowZ
      modifies screen, surf, stores
      ensures Valid() && Titled() && AllClean() && old(Fine()) <= Fine()
      ensures Now() == Created(old(Now()), g, wtype, granted)
    {
      var _ := HandleNewWindow(wtype, granted);
      assert forall i :: 0 <= i < |surf| ==> surf[i].Bounds() == old(surf[i].Bounds());
    }

    method ServeSmall(r: Request)
      requires Valid() && Titled() && !r.PointerEvent? && !r.NewWindow?
      modifies this`zCount, this`types, this`kbd, this`ptr, this`focused, this`elev, this`content, this`menu, this`sent
      modifies windowZ, screen, stores
      ensures Valid() && Titled() && old(Fine()) <= Fine()
      ensures Now() == Served(old(Now()), g, r)
      ensures old(Inked()) ==> Inked()
    {
      ServedOk(Now(), g, r);
      if r.Destroy? || r.OwnerExits? {
        ServeClosing(r);
      } else {
        ServeInput(r);
      }
    }

    method ServeClosing(r: Request)
      requires Valid() && Titled() && (r.Destroy? || r.OwnerExits?)
      modifies this`zCount, this`types, this`kbd, this`ptr, this`focused, windowZ, screen, stores
      ensures Ready() && old(Fine()) <= Fine() && Now() == Served(old(Now()), g, r)
    {
      if r.Destroy? {
        HandleDestroyWindow(r.w);
      } else {
        ScanOwnerExits(r.exited);
      }
    }

    method ServeInput(r: Request)
      requires Ready() && !r.PointerEvent? && !r.NewWindow? && !r.Destroy? && !r.OwnerExits?
      modifies this`kbd, this`ptr, this`elev, this`content, this`menu, this`sent, screen, stores
      ensures Ready() && old(Fine()) <= Fine() && Now() == Served(old(Now()), g, r)
      ensures old(Inked()) ==> Inked()
    {
      match r
      case SetScroll(w, total, offset) => HandleSetScroll(w, total, offset);
      case KeyEvent(code, mods) => HandleKey(code, mods);
      case KbdSubscribe(who) => SubscribeKeys(who);
      case PtrSubscribe(who) => SubscribePointer(who);
      case Repeat => RepeatArrow();
    }

    // A held scrollbar arrow steps again.
    method RepeatArrow()
      requires Ready()
      modifies this`elev, screen, stores
      ensures Ready() && old(Fine()) <= Fine() && Now() == Repeated(old(Now()), g)
    {
      if bar.arrow == 0 || bar.wid < 1 || bar.wid > g.slots { return; }
      LineStep(bar.wid, bar.arrow);
    }

    ghost predicate AllClean()
      reads surf
    {
      forall i :: 0 <= i < |surf| ==> surf[i].Clean()
    }

    // When nothing is held, nothing pending and nothing smeared, every pixel is right.
    lemma SettledIsRight()
      requires Sized() && Coherent() && AllClean() && smears == [] && !drag.active && !menuDrag.active
      ensures forall x, y :: g.OnScreen(x, y) ==> Right(x, y)
      ensures Inked() && menu.active ==> MenuDrawn()
    {
      forall x, y | g.OnScreen(x, y)
        ensures Right(x, y)
      {
        CleanIsRight(x, y);
      }
    }

    // What should be visible if window w showed this picture.
    ghost function VisibleWith(w: int, image: seq<seq<Color>>, x: int, y: int): Color
      requires Sized() && g.OnScreen(x, y) && 1 <= w <= g.slots
      requires |image| == g.UW() && forall a :: 0 <= a < g.UW() ==> |image[a]| == g.UH()
      reads this, windowZ, overlay, stores
    {
      if InMenu(x, y) then overlay[x, y]
      else
        var t := Top(x, y);
        if t == 0 then WORKSPACE
        else if t == w then image[x - pos[w - 1].x][y - pos[w - 1].y]
        else Face(t, x, y)
    }

    // Only window w's picture has changed, to this one.
    twostate lemma OnlyPainted(new w: int, new im: seq<seq<Color>>)
      requires old(Sized()) && Sized() && 1 <= w <= g.slots && Coherent() && AllClean()
      requires unchanged(this) && unchanged(windowZ) && unchanged(overlay)
      requires forall i :: 0 <= i < |surf| && i != w - 1 ==> unchanged(surf[i].fb)
      requires surf[w - 1].Image() == im
      ensures forall x, y :: g.OnScreen(x, y) && !Marked(x, y) ==> screen[x, y] == old(VisibleWith(w, im, x, y))
    {
      forall x, y | g.OnScreen(x, y) && !Marked(x, y)
        ensures screen[x, y] == old(VisibleWith(w, im, x, y))
      {
        CleanIsRight(x, y);
        OnlyThatPicture(w, im, x, y);
      }
    }

    lemma CleanIsRight(x: int, y: int)
      requires Sized() && Coherent() && AllClean() && g.OnScreen(x, y) && !Marked(x, y)
      ensures Right(x, y)
    {
      assert Point(x, y) in Fine() && !Unflushed(x, y);
    }

    twostate lemma OnlyThatPicture(new w: int, new im: seq<seq<Color>>, new x: int, new y: int)
      requires old(Sized()) && Sized() && 1 <= w <= g.slots && g.OnScreen(x, y)
      requires unchanged(this) && unchanged(windowZ) && unchanged(overlay)
      requires forall i :: 0 <= i < |surf| && i != w - 1 ==> unchanged(surf[i].fb)
      requires surf[w - 1].Image() == im
      ensures Visible(x, y) == old(VisibleWith(w, im, x, y))
    {
      assert Top(x, y) == old(Top(x, y));
    }

    // From a coherent screen with nothing pending, a burst into one window and one copy of its
    // dirty box leave it coherent, and showing, wherever there is no outline and no smear, the
    // picture that the requests one by one make of the window.
    method BurstFromClean(w: int, ops: seq<Surf.PaintOp>)
      requires Valid() && Titled() && 1 <= w <= g.slots && Coherent() && AllClean()
      modifies screen, surf[w - 1], surf[w - 1].fb, surf[w - 1].scratch
      ensures Valid() && Titled() && Now() == old(Now()) && Coherent() && AllClean()
      ensures surf[w - 1].Contents() == surf[w - 1].AfterAll(old(surf[w - 1].Contents()), ops)
      ensures forall x, y :: g.OnScreen(x, y) && !Marked(x, y) ==>
        screen[x, y] == old(VisibleWith(w, surf[w - 1].AfterAll(surf[w - 1].Contents(), ops).image, x, y))
    {
      DrainWindow(w, ops);
      OnlyPainted(w, surf[w - 1].Image());
    }

    method PaintAndCopy(w: int, op: Surf.PaintOp)
      requires Valid() && Titled() && 1 <= w <= g.slots && Coherent() && AllClean()
      modifies screen, surf[w - 1], surf[w - 1].fb, surf[w - 1].scratch
      ensures Valid() && Titled() && Coherent() && AllClean()
      ensures surf[w - 1].Contents() == surf[w - 1].After(old(surf[w - 1].Contents()), op)
    {
      PaintInto(w, op);
      CompositeWindowDirty(w);
    }

    // The same with a copy after every request: the same screen but for outlines and smears.
    method BurstEagerly(w: int, ops: seq<Surf.PaintOp>)
      requires Valid() && Titled() && 1 <= w <= g.slots && Coherent() && AllClean()
      modifies screen, surf[w - 1], surf[w - 1].fb, surf[w - 1].scratch
      ensures Valid() && Titled() && Now() == old(Now()) && Coherent() && AllClean()
      ensures surf[w - 1].Contents() == surf[w - 1].AfterAll(old(surf[w - 1].Contents()), ops)
      ensures forall x, y :: g.OnScreen(x, y) && !Marked(x, y) ==>
        screen[x, y] == old(VisibleWith(w, surf[w - 1].AfterAll(surf[w - 1].Contents(), ops).image, x, y))
    {
      ghost var before := surf[w - 1].Contents();
      var i := 0;
      while i < |ops|
        invariant 0 <= i <= |ops| && Valid() && Titled() && Coherent() && AllClean()
        invariant surf[w - 1].Contents() == surf[w - 1].AfterAll(before, ops[..i])
      {
        assert ops[..i + 1][..i] == ops[..i];
        PaintAndCopy(w, ops[i]);
        i := i + 1;
      }
      assert ops[..i] == ops;
      OnlyPainted(w, surf[w - 1].Image());
    }

    // One turn of the main loop's work.
    method Perform(t: Turn)
      requires Valid() && Titled() && AllClean()
      modifies this, windowZ, screen, overlay, surf, stores, Scratches()
      ensures Valid() && Titled() && AllClean() && old(Fine()) <= Fine()
      ensures Now() == Done(old(Now()), g, t.Job())
      ensures old(Inked()) ==> Inked()
      ensures smears == SmearsDone(old(smears), old(Now()), g, t.Job())
    {
      if t.Task? {
        PerformJob(t.j);
      } else {
        PerformPaint(t);
      }
    }

    method PerformJob(j: Job)
      requires Valid() && Titled() && AllClean()
      modifies this, windowZ, screen, overlay, surf, stores
      ensures Valid() && Titled() && AllClean() && old(Fine()) <= Fine()
      ensures Now() == Done(old(Now()), g, j) && smears == SmearsDone(old(smears), old(Now()), g, j)
      ensures old(Inked()) ==> Inked()
    {
      if j.Ask? {
        Serve(j.r);
      } else if j.Poll? {
        PollPointerEvents(j.q);
      }
    }

    method PerformPaint(t: Turn)
      requires Valid() && Titled() && AllClean() && !t.Task?
      modifies this`titles, screen, surf, stores, Scratches()
      ensures Valid() && Titled() && AllClean() && old(Fine()) <= Fine() && Now() == old(Now())
    {
      if t.Rename? {
        HandleSetTitle(t.w, t.text, t.fetched);
      } else if 1 <= t.w <= g.slots {
        DrainWindow(t.w, t.ops);
      }
    }

    ghost function Scratches(): set<object> {
      (set s | s in surf :: s.scratch as object)
    }

    // The turn after the first i of a run.
    method TakeTurn(t: Turn, ghost d: Desk, ghost s: seq<Smear>, ghost js: seq<Job>, ghost i: nat)
      requires Valid() && Titled() && AllClean()
      requires d.Sized(g) && i < |js| && js[i] == t.Job()
      requires Now() == DoneAll(d, g, js[..i]) && smears == SmearsOver(s, d, g, js[..i])
      modifies this, windowZ, screen, overlay, surf, stores, Scratches()
      ensures Valid() && Titled() && AllClean() && old(Fine()) <= Fine()
      ensures Now() == DoneAll(d, g, js[..i + 1]) && smears == SmearsOver(s, d, g, js[..i + 1])
      ensures old(Inked()) ==> Inked()
    {
      assert js[..i + 1][..i] == js[..i];
      Perform(t);
    }

    // The turns of a run, one after the other.
    method TakeTurns(ts: seq<Turn>)
      requires Valid() && Titled() && AllClean()
      modifies this, windowZ, screen, overlay, surf, stores, Scratches()
      ensures Valid() && Titled() && AllClean() && old(Fine()) <= Fine()
      ensures Now() == DoneAll(old(Now()), g, Jobs(ts))
      ensures smears == SmearsOver(old(smears), old(Now()), g, Jobs(ts))
      ensures old(Inked()) ==> Inked()
    {
      ghost var d, s, before, inked, js := Now(), smears, Fine(), Inked(), Jobs(ts);
      var i := 0;
      assert js[..0] == [];
      while i < |ts|
        invariant 0 <= i <= |ts| && Valid() && Titled() && AllClean() && before <= Fine()
        invariant Now() == DoneAll(d, g, js[..i]) && smears == SmearsOver(s, d, g, js[..i])
        invariant inked ==> Inked()
      {
        TakeTurn(ts[i], d, s, js, i);
        i := i + 1;
      }
      assert js[..i] == js;
    }

    // Any run: the screen stays coherent, the window table in order, and the smears are those
    // that the run's forgotten outlines and ghosts left after its last moving drop.  A run that ends
    // without smears and with nothing held has every screen pixel exactly right.
    method Run(ts: seq<Turn>)
      requires Valid() && Titled() && AllClean() && Coherent()
      modifies this, windowZ, screen, overlay, surf, stores, Scratches()
      ensures Valid() && Titled() && AllClean() && Coherent()
      ensures Now() == DoneAll(old(Now()), g, Jobs(ts))
      ensures smears == SmearsOver(old(smears), old(Now()), g, Jobs(ts))
      ensures old(Inked()) ==> Inked()
      ensures smears == [] && !drag.active && !menuDrag.active ==>
        (forall x, y :: g.OnScreen(x, y) ==> Right(x, y)) && (Inked() && menu.active ==> MenuDrawn())
    {
      TakeTurns(ts);
      if smears == [] && !drag.active && !menuDrag.active { SettledIsRight(); }
    }

    // ---------- a run that leaves a smear ----------

    // A first window is open in the small geometry.
    ghost predicate Started(d: Drag)
      reads this, windowZ, surf, stores
    {
      g == SMALL && Valid() && Titled() && Now() == FirstWindow(d)
    }

    method PressTitle(ghost d: Drag)
      requires Started(d)
      modifies this, windowZ, screen, overlay, stores
      ensures Started(TITLE_GRABBED) && old(Fine()) <= Fine()
      ensures smears == SmearsAfter(old(smears), FirstWindow(d), SMALL, TITLE_PRESS)
      ensures screen[1000, 316] == old(screen[1000, 316])
    {
      PressAt(d);
      DispatchConsumed(TITLE_PRESS);
      assert g.OnScreen(1000, 316) && !OnOutline(DragRect(), 1000, 316);
    }

    method CarryOff()
      requires Started(TITLE_GRABBED)
      modifies this, windowZ, screen, overlay, stores
      ensures Started(TITLE_GRABBED.(out := Point(508, 316))) && old(Fine()) <= Fine()
      ensures smears == old(smears) && screen[1000, 316] == OUTLINE_COLOR
    {
      CarryAndRelease(smears);
      DispatchConsumed(FAR_MOTION);
      assert g.OnScreen(1000, 316) && OnOutline(DragRect(), 1000, 316);
    }

    method LetDown()
      requires Started(TITLE_GRABBED)
      modifies this, windowZ, screen, overlay, stores
      ensures Started(TITLE_GRABBED.(active := false)) && old(Fine()) <= Fine()
      ensures smears == old(smears) && screen[1000, 316] == old(screen[1000, 316])
    {
      CarryAndRelease(smears);
      DispatchConsumed(RELEASE);
      assert g.OnScreen(1000, 316) && !old(OnOutline(DragRect(), 1000, 316));
    }

    lemma BareWorkspace(d: Drag)
      requires Started(d)
      ensures g.OnScreen(1000, 316) && Visible(1000, 316) == WORKSPACE
    {
      assert Z() == [1] && pos == [Point(8, 16)];
      assert !Covers(pos, g, 1, 1000, 316) && Z()[..0] == [];
    }

    // It is picked up and carried away, grabbed again at its title bar and let go: nothing is
    // held any more, and part of the forgotten outline is left on the workspace.
    method ForgetOutline()
      requires Started(NO_DRAG) && smears == []
      modifies this, windowZ, screen, overlay, stores
      ensures Started(TITLE_GRABBED.(active := false)) && old(Fine()) <= Fine()
      ensures smears == [Forgotten(Rect(508, 316, SMALL.UW(), SMALL.UH()))]
      ensures g.OnScreen(1000, 316) && !Right(1000, 316)
    {
      PressAt(NO_DRAG);
      PressTitle(NO_DRAG);
      CarryOff();
      PressAt(drag);
      PressTitle(drag);
      LetDown();
      BareWorkspace(drag);
    }

    // ---------- a run that leaves a ghost ----------

    // The small desktop, in a known state.
    ghost predicate Stands(d: Desk)
      reads this, windowZ, surf, stores
    {
      g == SMALL && Valid() && Titled() && Now() == d
    }

    method DispatchTo(e: Event, ghost d: Desk, ghost d': Desk)
      requires Stands(d) && SMALL.Ok() && d.Sized(SMALL) && Dispatched(d, SMALL, e) == d' && Handled(d, SMALL, e).0
      modifies this, windowZ, screen, overlay, stores
      ensures Stands(d') && old(Fine()) <= Fine()
      ensures smears == SmearsAfter(old(smears), d, SMALL, e) && (DropsGhost(d, e) ==> MenuDrawn())
      ensures old(Inked()) ==> Inked()
    {
      DispatchConsumed(e);
    }

    // The menu is summoned, pinned and picked up by its title.
    method PickUpMenu()
      requires Stands(Initial(SMALL)) && smears == []
      modifies this, windowZ, screen, overlay, stores
      ensures Stands(WithMenu(PINNED, MENU_GRABBED)) && smears == [] && old(Fine()) <= Fine()
    {
      SummonAndPin();
      DispatchTo(SUMMON, Initial(SMALL), WithMenu(SUMMONED, NO_DRAG));
      DispatchTo(PIN_PRESS, WithMenu(SUMMONED, NO_DRAG), WithMenu(PINNED, NO_DRAG));
      DispatchTo(MENU_PRESS, WithMenu(PINNED, NO_DRAG), WithMenu(PINNED, MENU_GRABBED));
    }

    // It is carried away and dismissed by Escape ...
    method CarryAndEscape()
      requires Stands(WithMenu(PINNED, MENU_GRABBED)) && smears == []
      modifies this, windowZ, screen, overlay, stores
      ensures Stands(WithMenu(DISMISSED, MENU_CARRIED)) && old(Fine()) <= Fine() && smears == []
    {
      CarryAndDismiss();
      DispatchTo(MENU_MOTION, WithMenu(PINNED, MENU_GRABBED), WithMenu(PINNED, MENU_CARRIED));
      ServeSmall(KeyEvent(ESCAPE, 0));
    }

    // ... and let go: it is drawn again.
    method DropGhost()
      requires Stands(WithMenu(PINNED, MENU_GRABBED)) && smears == []
      modifies this, windowZ, screen, overlay, stores
      ensures Stands(WithMenu(GHOST, MENU_CARRIED.(active := false))) && old(Fine()) <= Fine()
      ensures smears == [Ghost(Rect(500, 400, SMALL.menuW, SMALL.MenuH()))] && MenuDrawn()
    {
      CarryAndEscape();
      CarryAndDismiss();
      DispatchTo(RELEASE, WithMenu(DISMISSED, MENU_CARRIED), WithMenu(GHOST, MENU_CARRIED.(active := false)));
    }

    // With a menu that does not look like the workspace, a wrong pixel is left.
    method LeaveGhost()
      requires Stands(Initial(SMALL)) && smears == [] && plate[GHOST][550][450] != WORKSPACE
      modifies this, windowZ, screen, overlay, stores
      ensures Stands(WithMenu(GHOST, MENU_CARRIED.(active := false))) && old(Fine()) <= Fine()
      ensures smears == [Ghost(Rect(500, 400, SMALL.menuW, SMALL.MenuH()))]
      ensures g.OnScreen(550, 450) && !Right(550, 450)
    {
      PickUpMenu();
      DropGhost();
      assert Z() == [] && MenuRect().Has(550, 450) && Look(menu, 550, 450) == plate[GHOST][550][450];
    }

    // ---------- a run that leaves a row highlighted ----------

    method HoverOver()
      requires Stands(Initial(SMALL)) && smears == [] && Inked()
      modifies this, windowZ, screen, overlay, stores
      ensures Stands(WithMenu(HOVERED, NO_DRAG)) && smears == [] && old(Fine()) <= Fine() && Inked()
    {
      SummonAndPin();
      HoverAndChoose();
      DispatchTo(SUMMON, Initial(SMALL), WithMenu(SUMMONED, NO_DRAG));
      DispatchTo(PIN_PRESS, WithMenu(SUMMONED, NO_DRAG), WithMenu(PINNED, NO_DRAG));
      DispatchTo(HOVER, WithMenu(PINNED, NO_DRAG), WithMenu(HOVERED, NO_DRAG));
    }

    method ChooseAnother()
      requires Stands(WithMenu(HOVERED, NO_DRAG)) && smears == [] && Inked()
      modifies this, windowZ, screen, overlay, stores
      ensures Stands(WithMenu(STRANDED, NO_DRAG).(sent := [Spawn(3)]))
      ensures smears == [] && old(Fine()) <= Fine() && Inked()
    {
      HoverAndChoose();
      DispatchTo(CHOOSE, WithMenu(HOVERED, NO_DRAG), WithMenu(STRANDED, NO_DRAG).(sent := [Spawn(3)]));
    }

    method Strand()
      requires Stands(Initial(SMALL)) && smears == [] && Inked() && Coherent() && AllClean()
      modifies this, windowZ, screen, overlay, stores
      ensures Stands(WithMenu(STRANDED, NO_DRAG).(sent := [Spawn(3)])) && smears == []
      ensures Coherent() && MenuDrawn()
    {
      HoverOver();
      ChooseAnother();
      SettledIsRight();
    }
  }

  /** A row of a pinned menu is hovered over and another item chosen: from the empty desktop to a
      menu that highlights nothing but shows that row highlighted. */
  method StuckHighlight(ink: imap<Part, Picture>, plate: imap<Menu, Picture>,
                        beyond: nat -> Color, glyph: (int, int, int) -> Color)
    returns (wm: WindowManager)
    requires SMALL.Ok() && WindowManager.Pictured(SMALL, ink, plate)
    ensures wm.g == SMALL && wm.plate == plate && wm.Valid() && wm.Titled() && wm.Coherent() && wm.smears == []
    ensures !wm.drag.active && !wm.menuDrag.active && wm.menu.active && wm.menu.highlighted == -1 && Stuck(wm.menu, 1)
    ensures forall x, y :: wm.g.OnScreen(x, y) && wm.MenuRect().Has(x, y) ==> wm.screen[x, y] == plate[STRANDED][x][y]
  {
    wm := new WindowManager(SMALL, ink, plate, beyond, glyph);
    wm.Strand();
    forall x, y | wm.g.OnScreen(x, y) && wm.MenuRect().Has(x, y)
      ensures wm.screen[x, y] == plate[STRANDED][x][y]
    {
      assert wm.Look(wm.menu, x, y) == plate[STRANDED][x][y];
    }
  }

  /** A menu dismissed while it is dragged: from the empty desktop to a wrong pixel. */
  method GhostMenu(ink: imap<Part, Picture>, plate: imap<Menu, Picture>,
                   beyond: nat -> Color, glyph: (int, int, int) -> Color)
    returns (wm: WindowManager)
    requires SMALL.Ok() && WindowManager.Pictured(SMALL, ink, plate) && plate[GHOST][550][450] != WORKSPACE
    ensures wm.g == SMALL && wm.Valid() && wm.Titled() && wm.Coherent()
    ensures !wm.drag.active && !wm.menuDrag.active
    ensures wm.smears == [Ghost(Rect(500, 400, SMALL.menuW, SMALL.MenuH()))]
    ensures wm.g.OnScreen(550, 450) && !wm.Right(550, 450)
  {
    wm := new WindowManager(SMALL, ink, plate, beyond, glyph);
    wm.LeaveGhost();
  }

  /** From the empty desktop on. */
  method ForgottenOutline(ink: imap<Part, Picture>, plate: imap<Menu, Picture>,
                          beyond: nat -> Color, glyph: (int, int, int) -> Color)
    returns (wm: WindowManager)
    requires WindowManager.Pictured(SMALL, ink, plate)
    ensures wm.g == SMALL && wm.Valid() && wm.Titled() && wm.Coherent()
    ensures !wm.drag.active && !wm.menuDrag.active
    ensures wm.smears == [Forgotten(Rect(508, 316, SMALL.UW(), SMALL.UH()))]
    ensures wm.g.OnScreen(1000, 316) && !wm.Right(1000, 316)
  {
    wm := FirstWindowOpen(ink, plate, beyond, glyph);
    wm.ForgetOutline();
  }

  method FirstWindowOpen(ink: imap<Part, Picture>, plate: imap<Menu, Picture>,
                         beyond: nat -> Color, glyph: (int, int, int) -> Color)
    returns (wm: WindowManager)
    requires WindowManager.Pictured(SMALL, ink, plate)
    ensures fresh(wm) && fresh(wm.windowZ) && fresh(wm.screen) && fresh(wm.overlay) && fresh(wm.stores)
    ensures wm.Started(NO_DRAG) && wm.smears == [] && wm.Coherent()
  {
    assert SMALL.Ok() by { PressAt(NO_DRAG); }
    wm := new WindowManager(SMALL, ink, plate, beyond, glyph);
    CreatedFirst();
    wm.ServeNew(CONSOLE, true);
  }

  /** A turn of the main loop: a request, key, event or queue of events; a burst of paint
      requests from one client; or a new title. */
  datatype Turn = Task(j: Job) | Burst(w: int, ops: seq<Surf.PaintOp>) | Rename(w: int, text: string, fetched: bool) {
    function Job(): Job {
      if Task? then j else Pixels
    }
  }

  function Jobs(ts: seq<Turn>): (js: seq<Job>)
    ensures |js| == |ts| && forall i :: 0 <= i < |ts| ==> js[i] == ts[i].Job()
  {
    seq(|ts|, i requires 0 <= i < |ts| => ts[i].Job())
  }
}
