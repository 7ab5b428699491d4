/** Every request, key and pointer event keeps the invariant of the window table, so it holds
    after any run. */
module WindowTable {
  import opened Geometry
  import opened Stacking
  import opened Desk

  lemma OpenedOk(d: Desk, g: Geo, w: int)
    requires g.Ok() && TableOk(d, g) && 1 <= w <= g.slots && d.types[w - 1] == FREE
    ensures TableOk(Opened(d, g, w), g)
  {
    var e := Opened(d, g, w);
    assert !d.Live(w);
    forall v ensures v in e.z <==> e.Live(v) {
      if v != w { assert v in e.z <==> v in d.z; }
    }
  }

  /** The top of the stack stays the top when another window leaves. */
  lemma TopStays(z: seq<int>, w: int)
    requires z != [] && z[|z| - 1] != w
    ensures var r := Without(z, w); r != [] && r[|r| - 1] == z[|z| - 1]
  {
    var k := |z| - 1;
    assert z == z[..k] + [z[k]];
    WithoutLast(z[..k], z[k], w);
  }

  lemma ClosedOk(d: Desk, g: Geo, w: int)
    requires TableOk(d, g) && d.Live(w)
    ensures TableOk(Closed(d, g, w), g)
  {
    WithoutDistinct(d.z, w);
    var e := Closed(d, g, w);
    forall v ensures v in e.z <==> e.Live(v) {
      if v != w { assert v in e.z <==> v in d.z; }
    }
    assert w in d.z;
    if d.focused != w {
      TopStays(d.z, w);
    }
  }

  lemma RaisedOk(d: Desk, g: Geo, w: int)
    requires TableOk(d, g)
    ensures TableOk(Raised(d, w), g)
  {
    if w in d.z {
      WithoutDistinct(d.z, w);
      var e := Raised(d, w);
      assert forall v :: v in e.z <==> v in d.z;
    }
  }

  lemma {:induction false} ReapedOk(d: Desk, g: Geo, exited: set<int>, i: nat)
    requires TableOk(d, g) && i <= g.slots
    ensures TableOk(Reaped(d, g, exited, i), g)
    decreases g.slots - i
  {
    if i < g.slots {
      if d.types[i] != FREE && i + 1 in exited {
        ClosedOk(d, g, i + 1);
        ReapedOk(Closed(d, g, i + 1), g, exited, i + 1);
      } else {
        ReapedOk(d, g, exited, i + 1);
      }
    }
  }

  lemma SetElevOk(d: Desk, g: Geo, w: int, e: int)
    requires g.Ok() && TableOk(d, g) && 1 <= w <= g.slots
    ensures TableOk(SetElev(d, g, w, e), g)
  {
    assert forall v :: SetElev(d, g, w, e).Live(v) <==> d.Live(v);
  }

  lemma PushOffsetOk(d: Desk, g: Geo, w: int)
    requires g.Ok() && TableOk(d, g) && 1 <= w <= g.slots
    ensures TableOk(PushOffset(d, g, w), g)
  {
    assert forall v :: PushOffset(d, g, w).Live(v) <==> d.Live(v);
  }

  /** Changing only what the pointer holds keeps the table. */
  lemma GrabOk(d: Desk, g: Geo, bar: BarGrab)
    requires TableOk(d, g)
    requires bar.dragging || bar.arrow != 0 || bar.anchor != 0 ==> 1 <= bar.wid <= g.slots
    ensures TableOk(d.(bar := bar), g)
  {
    assert forall v :: d.(bar := bar).Live(v) <==> d.Live(v);
  }

  lemma BarPressedOk(d: Desk, g: Geo, w: int, hit: Hit, py: int)
    requires g.Ok() && TableOk(d, g) && 1 <= w <= g.slots
    ensures TableOk(BarPressed(d, g, w, hit, py), g)
  {
    var e := d.elev[w - 1];
    var r := BarPressed(d, g, w, hit, py);
    match hit
    case Miss =>
    case Elev => GrabOk(d, g, d.bar.(dragging := true, wid := w, grabOff := py - (d.pos[w - 1].y + e)));
    case LineUp => PressOk(d, g, w, d.bar.(wid := w, arrow := 1), e - ELEV_LINE, r);
    case LineDown => PressOk(d, g, w, d.bar.(wid := w, arrow := 2), e + ELEV_LINE, r);
    case Top => PressOk(d, g, w, d.bar.(wid := w, anchor := 1), g.ElevMin(), r);
    case Bottom => PressOk(d, g, w, d.bar.(wid := w, anchor := 2), g.ElevMax(), r);
    case PageUp => PressOk(d, g, w, d.bar, e - ELEV_PAGE, r);
    case PageDown => PressOk(d, g, w, d.bar, e + ELEV_PAGE, r);
  }

  lemma PressOk(d: Desk, g: Geo, w: int, bar: BarGrab, e: int, r: Desk)
    requires g.Ok() && TableOk(d, g) && 1 <= w <= g.slots
    requires bar.wid == w || bar == d.bar
    requires r == Pressed(d, g, w, bar, e)
    ensures TableOk(r, g)
  {
    GrabOk(d, g, bar);
    StepOk(d.(bar := bar), g, w, e);
  }

  lemma StepOk(d: Desk, g: Geo, w: int, e: int)
    requires g.Ok() && TableOk(d, g) && 1 <= w <= g.slots
    ensures TableOk(PushOffset(SetElev(d, g, w, e), g, w), g)
  {
    SetElevOk(d, g, w, e);
    PushOffsetOk(SetElev(d, g, w, e), g, w);
  }

  lemma BarMovedOk(d: Desk, g: Geo, py: int)
    requires g.Ok() && TableOk(d, g)
    ensures TableOk(BarMoved(d, g, py), g)
  {
    var w := d.bar.wid;
    if w < 1 || w > g.slots {
      GrabOk(d, g, d.bar.(dragging := false));
    } else {
      StepOk(d, g, w, Clamp(py - d.bar.grabOff - d.pos[w - 1].y, g.ElevMin(), g.ElevMax()));
    }
  }

  lemma ScrollSetOk(d: Desk, g: Geo, w: int, total: int, offset: int)
    requires g.Ok() && TableOk(d, g)
    ensures TableOk(ScrollSet(d, g, w, total, offset), g)
  {
    if 1 <= w <= g.slots {
      var d1 := d.(content := d.content[w - 1 := total]);
      assert forall v :: d1.Live(v) <==> d.Live(v);
      SetElevOk(d1, g, w, ElevOf(offset, total - g.CH(), g));
    }
  }

  /** Changing only the menu, the outlines or the outgoing messages keeps the table. */
  lemma MenuOk(d: Desk, e: Desk, g: Geo)
    requires TableOk(d, g)
    requires e == d.(menu := e.menu, menuDrag := e.menuDrag, drag := e.drag, sent := e.sent)
    requires Fits(Point(e.menu.x, e.menu.y), g.menuW, g.MenuH(), g) && -1 <= e.menu.highlighted < g.items
    requires e.menuDrag.active ==> Fits(e.menuDrag.out, g.menuW, g.MenuH(), g)
    requires e.drag.active ==> 1 <= e.drag.wid <= g.slots && Fits(e.drag.out, g.UW(), g.UH(), g)
    ensures TableOk(e, g)
  {
    assert forall v :: e.Live(v) <==> d.Live(v);
  }

  lemma ReleasedOk(d: Desk, g: Geo)
    requires g.Ok() && TableOk(d, g)
    ensures TableOk(Released(d, g), g)
  {
    var bar := d.bar.(dragging := false, arrow := 0, anchor := 0);
    GrabOk(d, g, bar);
    if 1 <= d.bar.wid <= g.slots {
      PushOffsetOk(d.(bar := bar), g, d.bar.wid);
    }
  }

  lemma DroppedOk(d: Desk, g: Geo)
    requires TableOk(d, g) && d.drag.active
    ensures TableOk(Dropped(d, g), g)
  {
    assert forall v :: Dropped(d, g).Live(v) <==> d.Live(v);
  }

  lemma LeftDownOk(d: Desk, g: Geo, e: Event)
    requires g.Ok() && TableOk(d, g)
    ensures TableOk(LeftDown(d, g, e).1, g)
  {
    var t := TopAt(d.z, d.pos, g, e.x, e.y);
    if t != 0 {
      assert d.Live(t);
      ClosedOk(d, g, t);
      RaisedOk(d, g, t);
      var r := Raised(d, t);
      if TitleHit(r, g, t, e.x, e.y) {
        MenuOk(r, Grabbed(r, g, t, e), g);
      } else {
        BarPressedOk(r, g, t, BarHit(r, g, t, e.x, e.y), e.y);
      }
    }
  }

  lemma WindowsHandledOk(d: Desk, g: Geo, e: Event)
    requires g.Ok() && TableOk(d, g)
    ensures TableOk(WindowsHandled(d, g, e).1, g)
  {
    if e.kind == Down && (e.button == Right || e.button == Middle) && TopAt(d.z, d.pos, g, e.x, e.y) == 0 {
      MenuOk(d, Shown(d, g, e.x, e.y), g);
    } else if e.kind == Motion {
      if d.bar.dragging {
        BarMovedOk(d, g, e.y);
      } else if d.drag.active {
        MenuOk(d, WindowsHandled(d, g, e).1, g);
      }
    } else if e.kind == Down {
      LeftDownOk(d, g, e);
    } else {
      ReleasedOk(d, g);
      if d.drag.active { DroppedOk(d, g); }
    }
  }

  lemma HandledOk(d: Desk, g: Geo, e: Event)
    requires g.Ok() && TableOk(d, g)
    ensures TableOk(Handled(d, g, e).1, g)
  {
    if d.menuDrag.active {
      MenuOk(d, MenuDragged(d, g, e), g);
    } else if MenuOwns(d, g, e) {
      MenuOk(d, MenuHandled(d, g, e), g);
    } else {
      var d1 := d.(menu := Highlighted(d.menu, -1));
      MenuOk(d, d1, g);
      WindowsHandledOk(d, g, e);
      WindowsHandledOk(d1, g, e);
    }
  }

  lemma DispatchedOk(d: Desk, g: Geo, e: Event)
    requires g.Ok() && TableOk(d, g)
    ensures TableOk(Dispatched(d, g, e), g)
  {
    HandledOk(d, g, e);
    var d1 := Handled(d, g, e).1;
    MenuOk(d1, Forwarded(d1, g, e), g);
  }

  lemma KeyHandledOk(d: Desk, g: Geo, code: int, mods: int)
    requires g.Ok() && TableOk(d, g)
    ensures TableOk(KeyHandled(d, g, code, mods), g)
  {
    MenuOk(d, KeyHandled(d, g, code, mods), g);
  }

  lemma SubscribedOk(d: Desk, g: Geo, who: int)
    requires TableOk(d, g)
    ensures TableOk(KbdSubscribed(d, g, who), g) && TableOk(PtrSubscribed(d, g, who), g)
  {
    if d.z != [] {
      assert d.Live(d.focused);
    }
    assert forall v :: KbdSubscribed(d, g, who).Live(v) <==> d.Live(v);
    assert forall v :: PtrSubscribed(d, g, who).Live(v) <==> d.Live(v);
  }

  // ---------- runs ----------

  /** Everything that reaches the window manager and concerns its table.  The flag of NewWindow
      says whether the window's services and backing store could be granted. */
  datatype Request =
    | NewWindow(wtype: int, granted: bool)
    | Destroy(w: int)
    | OwnerExits(exited: set<int>)
    | SetScroll(w: int, total: int, offset: int)
    | PointerEvent(e: Event)
    | KeyEvent(code: int, mods: int)
    | KbdSubscribe(who: int)
    | PtrSubscribe(who: int)
    | Repeat

  function Created(d: Desk, g: Geo, wtype: int, granted: bool): (r: Desk)
    requires g.Ok() && d.Sized(g)
    ensures r.Sized(g)
  {
    var w := FreeSlot(d.types, 0);
    if wtype != CONSOLE || w > g.slots || !granted then d else Opened(d, g, w)
  }

  function Destroyed(d: Desk, g: Geo, w: int): (r: Desk)
    requires d.Sized(g)
    ensures r.Sized(g)
  {
    if d.Live(w) then Closed(d, g, w) else d
  }

  function Repeated(d: Desk, g: Geo): (r: Desk)
    requires d.Sized(g)
    ensures r.Sized(g)
  {
    if d.bar.arrow != 0 && 1 <= d.bar.wid <= g.slots then LineStepped(d, g, d.bar.wid, d.bar.arrow) else d
  }

  function Served(d: Desk, g: Geo, r: Request): (d': Desk)
    requires g.Ok() && d.Sized(g)
    ensures d'.Sized(g)
  {
    match r
    case NewWindow(wtype, granted) => Created(d, g, wtype, granted)
    case Destroy(w) => Destroyed(d, g, w)
    case OwnerExits(exited) => Reaped(d, g, exited, 0)
    case SetScroll(w, total, offset) => ScrollSet(d, g, w, total, offset)
    case PointerEvent(e) => Dispatched(d, g, e)
    case KeyEvent(code, mods) => KeyHandled(d, g, code, mods)
    case KbdSubscribe(who) => KbdSubscribed(d, g, who)
    case PtrSubscribe(who) => PtrSubscribed(d, g, who)
    case Repeat => Repeated(d, g)
  }

  lemma ServedOk(d: Desk, g: Geo, r: Request)
    requires g.Ok() && TableOk(d, g)
    ensures TableOk(Served(d, g, r), g)
  {
    match r
    case NewWindow(wtype, granted) =>
      var w := FreeSlot(d.types, 0);
      if w <= g.slots { OpenedOk(d, g, w); }
    case Destroy(w) => if d.Live(w) { ClosedOk(d, g, w); }
    case OwnerExits(exited) => ReapedOk(d, g, exited, 0);
    case SetScroll(w, total, offset) => ScrollSetOk(d, g, w, total, offset);
    case PointerEvent(e) => DispatchedOk(d, g, e);
    case KeyEvent(code, mods) => KeyHandledOk(d, g, code, mods);
    case KbdSubscribe(who) => SubscribedOk(d, g, who);
    case PtrSubscribe(who) => SubscribedOk(d, g, who);
    case Repeat =>
      if 1 <= d.bar.wid <= g.slots {
        SetElevOk(d, g, d.bar.wid, d.elev[d.bar.wid - 1] + (if d.bar.arrow == 1 then -ELEV_LINE else ELEV_LINE));
      }
  }

  function Initial(g: Geo): (d: Desk)
    requires g.Ok()
    ensures TableOk(d, g)
  {
    Desk(seq(g.slots, _ => FREE), seq(g.slots, _ => Point(0, 0)), [], 0,
         seq(g.slots, _ => 0), seq(g.slots, _ => 0), seq(g.slots, _ => 0), seq(g.slots, _ => 0),
         NO_DRAG, BarGrab(false, 0, 0, 0, 0), Menu(false, false, 0, 0, -1, {}), NO_DRAG, [])
  }

  function ServedAll(d: Desk, g: Geo, rs: seq<Request>): (d': Desk)
    requires g.Ok() && d.Sized(g)
    ensures d'.Sized(g)
  {
    if rs == [] then d else Served(ServedAll(d, g, rs[..|rs| - 1]), g, rs[|rs| - 1])
  }

  /** Over every run: each live window is on the stack exactly once, the focused window is its
      top, every window is on screen, dead ids have no subscribers, elevators stay on track. */
  lemma {:induction false} TableHoldsForever(d: Desk, g: Geo, rs: seq<Request>)
    requires g.Ok() && TableOk(d, g)
    ensures TableOk(ServedAll(d, g, rs), g)
    decreases |rs|
  {
    if rs != [] {
      TableHoldsForever(d, g, rs[..|rs| - 1]);
      ServedOk(ServedAll(d, g, rs[..|rs| - 1]), g, rs[|rs| - 1]);
    }
  }

  // The slots whose windows are gone, of those from i on.
  ghost predicate Gone(d: Desk, r: Desk, g: Geo, exited: set<int>, i: nat)
    requires d.Sized(g) && r.Sized(g)
  {
    && r.pos == d.pos && r.elev == d.elev && r.sent == d.sent
    && (forall j :: 0 <= j < g.slots ==> r.types[j] == if i <= j && j + 1 in exited then FREE else d.types[j])
    && (forall w :: w in r.z <==> w in d.z && !(i < w && w in exited))
  }

  lemma CloseOne(d: Desk, g: Geo, w: int)
    requires g.Ok() && TableOk(d, g) && d.Live(w)
    ensures var r := Closed(d, g, w);
            && TableOk(r, g) && r.pos == d.pos && r.elev == d.elev && r.sent == d.sent
            && r.types == d.types[w - 1 := FREE] && forall v :: v in r.z <==> v in d.z && v != w
  {
    ClosedOk(d, g, w);
    WithoutDistinct(d.z, w);
  }

  lemma GoneOn(d: Desk, d1: Desk, r: Desk, g: Geo, exited: set<int>, i: nat)
    requires TableOk(d, g) && d1.Sized(g) && r.Sized(g) && i < g.slots && Gone(d1, r, g, exited, i + 1)
    requires if d.types[i] != FREE && i + 1 in exited then
               d1.pos == d.pos && d1.elev == d.elev && d1.sent == d.sent
               && d1.types == d.types[i := FREE] && forall v :: v in d1.z <==> v in d.z && v != i + 1
             else d1 == d
    ensures Gone(d, r, g, exited, i)
  {
    assert d.types[i] == FREE ==> !d.Live(i + 1);
  }

  /** When owners exit, exactly their live windows are closed; the others stay on the stack, where
      they are. */
  lemma {:induction false} ReapedExactly(d: Desk, g: Geo, exited: set<int>, i: nat)
    requires g.Ok() && TableOk(d, g) && i <= g.slots
    ensures Gone(d, Reaped(d, g, exited, i), g, exited, i)
    decreases g.slots - i
  {
    if i < g.slots {
      var d1 := d;
      if d.types[i] != FREE && i + 1 in exited {
        CloseOne(d, g, i + 1);
        d1 := Closed(d, g, i + 1);
      }
      ReapedExactly(d1, g, exited, i + 1);
      GoneOn(d, d1, Reaped(d, g, exited, i), g, exited, i);
    } else {
      assert forall w :: w in d.z ==> w <= g.slots;
    }
  }
}
