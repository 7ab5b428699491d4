/** Draining the pointer queue keeps only the latest of a run of drag motions.  When that is
    the same as handling every event, and when it is not. */
module Coalesce {
  import opened Geometry
  import opened Desk
  import opened WindowTable
  import opened Stacking

  datatype Pending = NoMotion | Pending(x: int, y: int)

  /** Every event handled separately. */
  function Each(d: Desk, g: Geo, q: seq<Event>): (d': Desk)
    requires g.Ok() && d.Sized(g)
    ensures d'.Sized(g)
    decreases |q|
  {
    if q == [] then d else Each(Dispatched(d, g, q[0]), g, q[1..])
  }

  function Flushed(d: Desk, g: Geo, p: Pending): (d': Desk)
    requires g.Ok() && d.Sized(g)
    ensures d'.Sized(g)
  {
    match p
    case NoMotion => d
    case Pending(x, y) => Handled(d, g, Event(Motion, x, y, NoButton, 0)).1
  }

  predicate Held(d: Desk, e: Event) {
    e.kind == Motion && d.drag.active && !d.menu.active
  }

  /** The draining loop: hold back drag motions, and apply the last one before anything else. */
  function Drained(d: Desk, g: Geo, q: seq<Event>, p: Pending): (d': Desk)
    requires g.Ok() && d.Sized(g)
    ensures d'.Sized(g)
    decreases |q|
  {
    if q == [] then Flushed(d, g, p)
    else if Held(d, q[0]) then Drained(d, g, q[1..], Pending(q[0].x, q[0].y))
    else Drained(Dispatched(Flushed(d, g, p), g, q[0]), g, q[1..], NoMotion)
  }

  // ---------- messages are only ever added ----------

  /** Two states that differ only in what has been sent. */
  predicate Alike(d: Desk, f: Desk) { d == f.(sent := d.sent) }

  /** e is what d became while f became h, and both sent the same. */
  ghost predicate Together(d: Desk, f: Desk, e: Desk, h: Desk) {
    Alike(e, h) && exists m: seq<Sent> :: e.sent == d.sent + m && h.sent == f.sent + m
  }

  lemma Sending(d: Desk, f: Desk, e: Desk, h: Desk, m: seq<Sent>)
    requires Alike(e, h) && e.sent == d.sent + m && h.sent == f.sent + m
    ensures Together(d, f, e, h)
  {
  }

  lemma Quietly(d: Desk, f: Desk, e: Desk, h: Desk)
    requires Alike(e, h) && e.sent == d.sent && h.sent == f.sent
    ensures Together(d, f, e, h)
  {
    Sending(d, f, e, h, []);
  }

  lemma PushTogether(d: Desk, f: Desk, g: Geo, w: int)
    requires g.Ok() && d.Sized(g) && f.Sized(g) && Alike(d, f) && 1 <= w <= g.slots
    ensures Together(d, f, PushOffset(d, g, w), PushOffset(f, g, w))
  {
    var maxOff := d.content[w - 1] - g.CH();
    if maxOff <= 0 || d.ptr[w - 1] == 0 {
      Quietly(d, f, d, f);
    } else {
      Sending(d, f, PushOffset(d, g, w), PushOffset(f, g, w),
              [Scroll(d.ptr[w - 1], OffsetOf(d.elev[w - 1], maxOff, g))]);
    }
  }

  // What a press on an arrow, an anchor or the track holds, and where it takes the elevator.
  function GrabOf(bar: BarGrab, w: int, hit: Hit): BarGrab {
    match hit
    case LineUp => bar.(wid := w, arrow := 1)
    case LineDown => bar.(wid := w, arrow := 2)
    case Top => bar.(wid := w, anchor := 1)
    case Bottom => bar.(wid := w, anchor := 2)
    case _ => bar
  }

  function TargetOf(e: int, g: Geo, hit: Hit): int {
    match hit
    case LineUp => e - ELEV_LINE
    case LineDown => e + ELEV_LINE
    case Top => g.ElevMin()
    case Bottom => g.ElevMax()
    case PageUp => e - ELEV_PAGE
    case PageDown => e + ELEV_PAGE
    case _ => e
  }

  lemma PressIs(d: Desk, g: Geo, w: int, hit: Hit, py: int)
    requires g.Ok() && d.Sized(g) && 1 <= w <= g.slots && !hit.Miss? && !hit.Elev?
    ensures BarPressed(d, g, w, hit, py) == Pressed(d, g, w, GrabOf(d.bar, w, hit), TargetOf(d.elev[w - 1], g, hit))
  {
  }

  lemma BarTogether(d: Desk, f: Desk, g: Geo, w: int, hit: Hit, py: int)
    requires g.Ok() && d.Sized(g) && f.Sized(g) && Alike(d, f) && 1 <= w <= g.slots
    ensures Together(d, f, BarPressed(d, g, w, hit, py), BarPressed(f, g, w, hit, py))
  {
    if hit.Miss? || hit.Elev? {
      Quietly(d, f, BarPressed(d, g, w, hit, py), BarPressed(f, g, w, hit, py));
    } else {
      PressIs(d, g, w, hit, py);
      PressIs(f, g, w, hit, py);
      PressTogether(d, f, g, w, GrabOf(d.bar, w, hit), TargetOf(d.elev[w - 1], g, hit));
    }
  }

  lemma PressTogether(d: Desk, f: Desk, g: Geo, w: int, bar: BarGrab, e: int)
    requires g.Ok() && d.Sized(g) && f.Sized(g) && Alike(d, f) && 1 <= w <= g.slots
    ensures Together(d, f, Pressed(d, g, w, bar, e), Pressed(f, g, w, bar, e))
  {
    PushTogether(SetElev(d.(bar := bar), g, w, e), SetElev(f.(bar := bar), g, w, e), g, w);
  }

  lemma MovedTogether(d: Desk, f: Desk, g: Geo, py: int)
    requires g.Ok() && d.Sized(g) && f.Sized(g) && Alike(d, f)
    ensures Together(d, f, BarMoved(d, g, py), BarMoved(f, g, py))
  {
    var w := d.bar.wid;
    if 1 <= w <= g.slots {
      var e := Clamp(py - d.bar.grabOff - d.pos[w - 1].y, g.ElevMin(), g.ElevMax());
      PushTogether(SetElev(d, g, w, e), SetElev(f, g, w, e), g, w);
      if e == d.elev[w - 1] { Quietly(d, f, d, f); }
    } else {
      Quietly(d, f, BarMoved(d, g, py), BarMoved(f, g, py));
    }
  }

  lemma ReleasedTogether(d: Desk, f: Desk, g: Geo)
    requires g.Ok() && d.Sized(g) && f.Sized(g) && Alike(d, f)
    ensures Together(d, f, Released(d, g), Released(f, g))
  {
    var bar := d.bar.(dragging := false, arrow := 0, anchor := 0);
    if d.bar.arrow != 0 && 1 <= d.bar.wid <= g.slots {
      PushTogether(d.(bar := bar), f.(bar := bar), g, d.bar.wid);
    } else {
      Quietly(d, f, Released(d, g), Released(f, g));
    }
  }

  lemma PressedTogether(d: Desk, f: Desk, g: Geo, e: Event)
    requires g.Ok() && d.Sized(g) && f.Sized(g) && Alike(d, f)
    ensures LeftDown(d, g, e).0 == LeftDown(f, g, e).0 && Together(d, f, LeftDown(d, g, e).1, LeftDown(f, g, e).1)
  {
    var t := TopAt(d.z, d.pos, g, e.x, e.y);
    if t == 0 || ButtonHit(d, g, t, e.x, e.y) || TitleHit(d, g, t, e.x, e.y) {
      Quietly(d, f, LeftDown(d, g, e).1, LeftDown(f, g, e).1);
    } else {
      var r, s := Raised(d, t), Raised(f, t);
      BarTogether(r, s, g, t, BarHit(r, g, t, e.x, e.y), e.y);
    }
  }

  lemma WindowsTogether(d: Desk, f: Desk, g: Geo, e: Event)
    requires g.Ok() && d.Sized(g) && f.Sized(g) && Alike(d, f)
    ensures WindowsHandled(d, g, e).0 == WindowsHandled(f, g, e).0
    ensures Together(d, f, WindowsHandled(d, g, e).1, WindowsHandled(f, g, e).1)
  {
    if e.kind == Motion && d.bar.dragging {
      MovedTogether(d, f, g, e.y);
    } else if e.kind == Down && e.button == Left {
      PressedTogether(d, f, g, e);
    } else if e.kind == Up && e.button == Left && (d.bar.dragging || d.bar.arrow != 0 || d.bar.anchor != 0) {
      ReleasedTogether(d, f, g);
    } else {
      Quietly(d, f, WindowsHandled(d, g, e).1, WindowsHandled(f, g, e).1);
    }
  }

  lemma MenuTogether(d: Desk, f: Desk, g: Geo, e: Event)
    requires g.Ok() && Alike(d, f)
    ensures Together(d, f, MenuHandled(d, g, e), MenuHandled(f, g, e))
  {
    var i := ItemAt(d, g, e.x, e.y);
    if e.kind == Down && e.button == Left && !PinRect(d).Has(e.x, e.y) && i >= 0 {
      Sending(d, f, Selected(d, g, i), Selected(f, g, i), [if i == g.items - 1 then Shutdown else Spawn(i)]);
    } else {
      Quietly(d, f, MenuHandled(d, g, e), MenuHandled(f, g, e));
    }
  }

  lemma HandledTogether(d: Desk, f: Desk, g: Geo, e: Event)
    requires g.Ok() && d.Sized(g) && f.Sized(g) && Alike(d, f)
    ensures Handled(d, g, e).0 == Handled(f, g, e).0
    ensures Together(d, f, Handled(d, g, e).1, Handled(f, g, e).1)
  {
    if d.menuDrag.active {
      Quietly(d, f, MenuDragged(d, g, e), MenuDragged(f, g, e));
    } else if MenuOwns(d, g, e) {
      MenuTogether(d, f, g, e);
    } else if d.menu.active && e.kind == Motion && d.menu.highlighted >= 0 {
      var m := Highlighted(d.menu, -1);
      WindowsTogether(d.(menu := m), f.(menu := m), g, e);
    } else {
      WindowsTogether(d, f, g, e);
    }
  }

  /** What an event does and what it makes the window manager send do not depend on what has
      been sent before. */
  lemma DispatchedTogether(d: Desk, f: Desk, g: Geo, e: Event)
    requires g.Ok() && d.Sized(g) && f.Sized(g) && Alike(d, f)
    ensures Together(d, f, Dispatched(d, g, e), Dispatched(f, g, e))
  {
    HandledTogether(d, f, g, e);
    var d1, f1 := Handled(d, g, e).1, Handled(f, g, e).1;
    if !Handled(d, g, e).0 {
      ForwardedTogether(d1, f1, g, e);
      var m: seq<Sent> :| d1.sent == d.sent + m && f1.sent == f.sent + m;
      var n: seq<Sent> :| Forwarded(d1, g, e).sent == d1.sent + n && Forwarded(f1, g, e).sent == f1.sent + n;
      Sending(d, f, Forwarded(d1, g, e), Forwarded(f1, g, e), m + n);
    }
  }

  lemma ForwardedTogether(d: Desk, f: Desk, g: Geo, e: Event)
    requires d.Sized(g) && f.Sized(g) && Alike(d, f)
    ensures Together(d, f, Forwarded(d, g, e), Forwarded(f, g, e))
  {
    var w := d.focused;
    if Forwarded(d, g, e) == d {
      Quietly(d, f, d, f);
    } else {
      var cx, cy := e.x - d.pos[w - 1].x - CONTENT_X, e.y - d.pos[w - 1].y - CONTENT_Y;
      Sending(d, f, Forwarded(d, g, e), Forwarded(f, g, e), [Pointer(d.ptr[w - 1], e.kind, cx, cy, e.button, e.state)]);
    }
  }

  // ---------- runs of drag motions ----------

  /** A motion would be held back. */
  predicate Gripped(d: Desk) { d.drag.active && !d.menu.active }

  /** The elevator is held as well, its window's client listens, and there is something to scroll. */
  predicate Listening(d: Desk, g: Geo)
    requires d.Sized(g)
  {
    var w := d.bar.wid;
    d.bar.dragging && !d.menuDrag.active && 1 <= w <= g.slots && d.ptr[w - 1] != 0 && d.content[w - 1] > g.CH()
  }

  /** Where a motion to row y takes the held elevator. */
  function ElevAt(d: Desk, g: Geo, y: int): int
    requires d.Sized(g) && 1 <= d.bar.wid <= g.slots
  {
    Clamp(y - d.bar.grabOff - d.pos[d.bar.wid - 1].y, g.ElevMin(), g.ElevMax())
  }

  /** A motion to row y moves an elevator that somebody listens to. */
  predicate Scrolls(d: Desk, g: Geo, y: int)
    requires d.Sized(g)
  {
    Listening(d, g) && ElevAt(d, g, y) != d.elev[d.bar.wid - 1]
  }

  /** Between any two other events at most one drag motion moves an elevator that somebody
      listens to.  The flag says that one has already. */
  ghost predicate ScrollsOnce(d: Desk, g: Geo, q: seq<Event>, moved: bool)
    requires g.Ok() && d.Sized(g)
    decreases |q|
  {
    if q == [] then true
    else if Held(d, q[0]) then
      !(moved && Scrolls(d, g, q[0].y))
      && ScrollsOnce(Dispatched(d, g, q[0]), g, q[1..], moved || Scrolls(d, g, q[0].y))
    else ScrollsOnce(Dispatched(d, g, q[0]), g, q[1..], false)
  }

  /** What a held-back motion does: one of three things moves. */
  function Nudged(d: Desk, g: Geo, x: int, y: int): (r: Desk)
    requires g.Ok() && d.Sized(g)
  {
    if d.menuDrag.active then d.(menuDrag := d.menuDrag.(out := OutlineAt(d.menuDrag, x, y, g.menuW, g.MenuH(), g)))
    else if d.bar.dragging then BarMoved(d, g, y)
    else d.(drag := d.drag.(out := OutlineAt(d.drag, x, y, g.UW(), g.UH(), g)))
  }

  lemma HeldMotion(d: Desk, g: Geo, e: Event)
    requires g.Ok() && TableOk(d, g) && Gripped(d) && e.kind == Motion
    ensures Dispatched(d, g, e) == Nudged(d, g, e.x, e.y) == Flushed(d, g, Pending(e.x, e.y))
    ensures Gripped(Dispatched(d, g, e))
  {
  }

  /** How many messages a held-back motion to row y makes the window manager send. */
  function Count(d: Desk, g: Geo, y: int): (n: nat)
    requires d.Sized(g)
  {
    if Scrolls(d, g, y) then 1 else 0
  }

  lemma NudgedSends(d: Desk, g: Geo, x: int, y: int)
    requires g.Ok() && TableOk(d, g)
    ensures |Nudged(d, g, x, y).sent| == |d.sent| + Count(d, g, y)
  {
  }

  /** What dragging the elevator to row y makes the window manager send. */
  function Notice(d: Desk, g: Geo, y: int): seq<Sent>
    requires g.Ok() && d.Sized(g)
  {
    if !Scrolls(d, g, y) then []
    else
      var w := d.bar.wid;
      [Scroll(d.ptr[w - 1], OffsetOf(ElevAt(d, g, y), d.content[w - 1] - g.CH(), g))]
  }

  lemma MovedIs(d: Desk, g: Geo, y: int)
    requires g.Ok() && d.Sized(g) && 1 <= d.bar.wid <= g.slots && d.bar.dragging && !d.menuDrag.active
    ensures BarMoved(d, g, y) ==
            d.(elev := d.elev[d.bar.wid - 1 := ElevAt(d, g, y)], sent := d.sent + Notice(d, g, y))
  {
    assert d.elev[d.bar.wid - 1 := d.elev[d.bar.wid - 1]] == d.elev;
    assert d.sent + [] == d.sent;
  }

  lemma MovedTwice(d: Desk, g: Geo, ya: int, yb: int)
    requires g.Ok() && d.Sized(g) && 1 <= d.bar.wid <= g.slots && d.bar.dragging && !d.menuDrag.active
    ensures var f := BarMoved(d, g, ya);
            && Alike(BarMoved(d, g, yb), BarMoved(f, g, yb))
            && (!(Scrolls(d, g, ya) && Scrolls(f, g, yb)) ==>
                  && BarMoved(f, g, yb) == BarMoved(d, g, yb)
                  && (Scrolls(d, g, yb) <==> Scrolls(d, g, ya) || Scrolls(f, g, yb)))
  {
    var f, w, a, b := BarMoved(d, g, ya), d.bar.wid, ElevAt(d, g, ya), ElevAt(d, g, yb);
    MovedIs(d, g, ya);
    MovedIs(d, g, yb);
    MovedIs(f, g, yb);
    assert f.elev[w - 1] == a && f.elev[w - 1 := b] == d.elev[w - 1 := b];
    if !Scrolls(d, g, ya) { assert f.sent == d.sent; }
  }

  /** After one held-back motion another one does what it would have done at once, except that
      the first may have sent something. */
  lemma NudgedTwice(d: Desk, g: Geo, xa: int, ya: int, xb: int, yb: int)
    requires g.Ok() && TableOk(d, g) && Gripped(d)
    ensures var f := Nudged(d, g, xa, ya);
            && f.Sized(g) && Alike(Nudged(d, g, xb, yb), Nudged(f, g, xb, yb))
            && (!(Scrolls(d, g, ya) && Scrolls(f, g, yb)) ==>
                  && Nudged(f, g, xb, yb) == Nudged(d, g, xb, yb)
                  && (Scrolls(d, g, yb) <==> Scrolls(d, g, ya) || Scrolls(f, g, yb)))
  {
    if !d.menuDrag.active && d.bar.dragging { MovedTwice(d, g, ya, yb); }
  }

  // ---------- when draining is sound ----------

  /** A held-back motion after a held-back motion, as the draining loop and as separate dispatch
      see it: f is the state once every motion so far has been dispatched. */
  lemma NextMotion(d: Desk, g: Geo, p: Pending, f: Desk, e: Event)
    requires g.Ok() && TableOk(d, g) && (p.Pending? ==> Gripped(d)) && Gripped(d) && e.kind == Motion
    requires f.Sized(g) && Alike(Flushed(d, g, p), f)
    ensures var p', f' := Pending(e.x, e.y), Dispatched(f, g, e);
            && TableOk(Flushed(d, g, p), g) && TableOk(f, g) && Gripped(f) && Alike(Flushed(d, g, p'), f')
            && |Flushed(d, g, p').sent| - |Flushed(d, g, p).sent| <= |f'.sent| - |f.sent|
            && (p.Pending? && Scrolls(d, g, p.y) && Scrolls(f, g, e.y) ==>
                  |Flushed(d, g, p').sent| - |Flushed(d, g, p).sent| < |f'.sent| - |f.sent|)
            && (f == Flushed(d, g, p) && !(p.Pending? && Scrolls(d, g, p.y) && Scrolls(f, g, e.y)) ==>
                  && f' == Flushed(d, g, p')
                  && (Scrolls(d, g, e.y) <==> (p.Pending? && Scrolls(d, g, p.y)) || Scrolls(f, g, e.y)))
  {
    FlushedOk(d, g, p);
    AlikeOk(Flushed(d, g, p), f, g);
    HeldMotion(d, g, e);
    NudgedSends(d, g, e.x, e.y);
    var h := Flushed(d, g, p);
    if p.Pending? {
      HeldMotion(d, g, Event(Motion, p.x, p.y, NoButton, 0));
      NudgedSends(d, g, p.x, p.y);
      NudgedTwice(d, g, p.x, p.y, e.x, e.y);
    }
    assert Gripped(f);
    HeldMotion(f, g, e);
    NudgedSends(f, g, e.x, e.y);
    NudgedAlike(h, f, g, e.x, e.y);
  }

  lemma NudgedAlike(h: Desk, f: Desk, g: Geo, x: int, y: int)
    requires g.Ok() && h.Sized(g) && f.Sized(g) && Alike(h, f)
    ensures Alike(Nudged(h, g, x, y), Nudged(f, g, x, y)) && Scrolls(h, g, y) == Scrolls(f, g, y)
  {
  }

  lemma AlikeOk(h: Desk, f: Desk, g: Geo)
    requires g.Ok() && TableOk(h, g) && Alike(h, f)
    ensures TableOk(f, g)
  {
    MenuOk(h, f, g);
  }

  lemma FlushedOk(d: Desk, g: Geo, p: Pending)
    requires g.Ok() && TableOk(d, g)
    ensures TableOk(Flushed(d, g, p), g)
  {
    if p.Pending? { HandledOk(d, g, Event(Motion, p.x, p.y, NoButton, 0)); }
  }

  /** For every queue, draining and handling every event end alike but for what was sent, and
      draining never sends more. */
  lemma {:induction false} OnlyMessagesLost(d: Desk, g: Geo, q: seq<Event>, p: Pending, f: Desk)
    requires g.Ok() && TableOk(d, g) && (p.Pending? ==> Gripped(d))
    requires f.Sized(g) && Alike(Flushed(d, g, p), f)
    ensures Alike(Drained(d, g, q, p), Each(f, g, q))
    ensures |Drained(d, g, q, p).sent| - |Flushed(d, g, p).sent| <= |Each(f, g, q).sent| - |f.sent|
    decreases |q|
  {
    if q != [] {
      FlushedGrip(d, g, p);
      if Held(d, q[0]) {
        NextMotion(d, g, p, f, q[0]);
        OnlyMessagesLost(d, g, q[1..], Pending(q[0].x, q[0].y), Dispatched(f, g, q[0]));
      } else {
        var h := Flushed(d, g, p);
        FlushedOk(d, g, p);
        DispatchedOk(h, g, q[0]);
        DispatchedTogether(h, f, g, q[0]);
        OnlyMessagesLost(Dispatched(h, g, q[0]), g, q[1..], NoMotion, Dispatched(f, g, q[0]));
      }
    }
  }

  lemma FlushedGrip(d: Desk, g: Geo, p: Pending)
    requires g.Ok() && TableOk(d, g) && (p.Pending? ==> Gripped(d))
    ensures Gripped(Flushed(d, g, p)) == Gripped(d)
  {
    if p.Pending? { HeldMotion(d, g, Event(Motion, p.x, p.y, NoButton, 0)); }
  }

  lemma {:induction false} DrainFrom(d: Desk, g: Geo, q: seq<Event>, p: Pending, f: Desk)
    requires g.Ok() && TableOk(d, g) && (p.Pending? ==> Gripped(d)) && f == Flushed(d, g, p)
    ensures Drained(d, g, q, p) == Each(f, g, q) <==> ScrollsOnce(f, g, q, p.Pending? && Scrolls(d, g, p.y))
    decreases |q|
  {
    if q != [] {
      FlushedGrip(d, g, p);
      FlushedOk(d, g, p);
      var f' := Dispatched(f, g, q[0]);
      DispatchedOk(f, g, q[0]);
      if Held(d, q[0]) {
        NextMotion(d, g, p, f, q[0]);
        if p.Pending? && Scrolls(d, g, p.y) && Scrolls(f, g, q[0].y) {
          OnlyMessagesLost(d, g, q[1..], Pending(q[0].x, q[0].y), f');
        } else {
          DrainFrom(d, g, q[1..], Pending(q[0].x, q[0].y), f');
        }
      } else {
        DrainFrom(f', g, q[1..], NoMotion, f');
      }
    }
  }

  /** Coalescing changes nothing, neither window positions, stacking, focus, grabs and menu nor
      outgoing messages, exactly when no client misses an elevator position. */
  lemma DrainExact(d: Desk, g: Geo, q: seq<Event>)
    requires g.Ok() && TableOk(d, g)
    ensures Drained(d, g, q, NoMotion) == Each(d, g, q) <==> ScrollsOnce(d, g, q, false)
  {
    DrainFrom(d, g, q, NoMotion, d);
  }

  /** It never changes anything but the messages, and never adds one. */
  lemma DrainKeepsState(d: Desk, g: Geo, q: seq<Event>)
    requires g.Ok() && TableOk(d, g)
    ensures Alike(Drained(d, g, q, NoMotion), Each(d, g, q))
    ensures |Drained(d, g, q, NoMotion).sent| <= |Each(d, g, q).sent|
  {
    OnlyMessagesLost(d, g, q, NoMotion, d);
  }

  // ---------- queues without overlapping grabs ----------

  predicate Holding(d: Desk) { d.drag.active || d.bar.dragging || d.menuDrag.active }

  predicate Single(d: Desk) {
    !(d.drag.active && d.bar.dragging) && !(d.drag.active && d.menuDrag.active) && !(d.bar.dragging && d.menuDrag.active)
  }

  /** No left press arrives while something is held. */
  ghost predicate OnePressAtATime(d: Desk, g: Geo, q: seq<Event>)
    requires g.Ok() && d.Sized(g)
    decreases |q|
  {
    q != [] ==>
      !(q[0].kind == Down && q[0].button == Left && Holding(d)) && OnePressAtATime(Dispatched(d, g, q[0]), g, q[1..])
  }

  lemma SingleKept(d: Desk, g: Geo, e: Event)
    requires g.Ok() && TableOk(d, g) && Single(d)
    requires !(e.kind == Down && e.button == Left && Holding(d))
    ensures Single(Dispatched(d, g, e))
  {
    if !d.menuDrag.active && !MenuOwns(d, g, e) && e.kind == Down && e.button == Left {
      LeftDownGrabs(d, g, e);
    }
  }

  lemma LeftDownGrabs(d: Desk, g: Geo, e: Event)
    requires g.Ok() && d.Sized(g) && !Holding(d)
    ensures Single(LeftDown(d, g, e).1) && LeftDown(d, g, e).1.menuDrag == d.menuDrag
  {
  }

  lemma {:induction false} OnePressScrollsNothing(d: Desk, g: Geo, q: seq<Event>, moved: bool)
    requires g.Ok() && TableOk(d, g) && Single(d) && OnePressAtATime(d, g, q)
    ensures ScrollsOnce(d, g, q, moved)
    decreases |q|
  {
    if q != [] {
      SingleKept(d, g, q[0]);
      DispatchedOk(d, g, q[0]);
      OnePressScrollsNothing(Dispatched(d, g, q[0]), g, q[1..], Held(d, q[0]) && moved);
    }
  }

  /** In particular draining is sound for every queue in which the pointer is pressed once at a time. */
  lemma CoalescingSound(d: Desk, g: Geo, q: seq<Event>)
    requires g.Ok() && TableOk(d, g) && Single(d) && OnePressAtATime(d, g, q)
    ensures Drained(d, g, q, NoMotion) == Each(d, g, q)
  {
    OnePressScrollsNothing(d, g, q, false);
    DrainExact(d, g, q);
  }

  // ---------- a queue for which it is not ----------

  const ONE_WINDOW := Desk(
    [CONSOLE], [Point(8, 16)], [1], 1, [0], [5], [40], [1000],
    NO_DRAG, BarGrab(false, 0, 0, 0, 0), Menu(false, false, 0, 0, -1, {}), NO_DRAG, [])

  const TITLE_PRESS := Event(Down, 100, 20, Left, 1)
  const ELEVATOR_PRESS := Event(Down, 660, 76, Left, 1)
  const FIRST_MOTION := Event(Motion, 660, 176, NoButton, 1)
  const SECOND_MOTION := Event(Motion, 660, 276, NoButton, 1)

  /** Both grabs held. */
  const BOTH_HELD := ONE_WINDOW.(
    drag := Drag(true, 1, Point(100, 20), Point(8, 16), Point(8, 16)),
    bar := BarGrab(true, 1, 20, 0, 0))

  lemma BothHeld()
    ensures SMALL.Ok() && TableOk(ONE_WINDOW, SMALL)
    ensures Dispatched(Dispatched(ONE_WINDOW, SMALL, TITLE_PRESS), SMALL, ELEVATOR_PRESS) == BOTH_HELD
  {
    TitleHeld();
    var g, d1 := SMALL, Grabbed(ONE_WINDOW, SMALL, 1, TITLE_PRESS);
    assert Without([1], 1) == [];
    assert TopAt([1], [Point(8, 16)], g, 660, 76) == 1;
    assert BarHit(d1, g, 1, 660, 76) == Elev;
  }

  lemma TitleHeld()
    ensures SMALL.Ok() && TableOk(ONE_WINDOW, SMALL)
    ensures Dispatched(ONE_WINDOW, SMALL, TITLE_PRESS) == Grabbed(ONE_WINDOW, SMALL, 1, TITLE_PRESS)
  {
    assert Without([1], 1) == [];
    assert TopAt([1], [Point(8, 16)], SMALL, 100, 20) == 1;
  }

  /** A press on the elevator while a window is dragged, then two motions: the window's client
      hears of both elevator positions one way and only of the last the other way. */
  lemma OverlappingGrabsDiffer()
    ensures SMALL.Ok() && TableOk(ONE_WINDOW, SMALL) && Single(ONE_WINDOW)
    ensures var q := [TITLE_PRESS, ELEVATOR_PRESS, FIRST_MOTION, SECOND_MOTION];
            Drained(ONE_WINDOW, SMALL, q, NoMotion) != Each(ONE_WINDOW, SMALL, q)
  {
    BothHeld();
    var g, d0, d2 := SMALL, ONE_WINDOW, BOTH_HELD;
    var d1 := Dispatched(d0, g, TITLE_PRESS);
    var q := [TITLE_PRESS, ELEVATOR_PRESS, FIRST_MOTION, SECOND_MOTION];
    assert q[1..] == [ELEVATOR_PRESS, FIRST_MOTION, SECOND_MOTION] && q[1..][1..] == [FIRST_MOTION, SECOND_MOTION];
    assert ScrollsOnce(d0, g, q, false) == ScrollsOnce(d1, g, q[1..], false) == ScrollsOnce(d2, g, q[1..][1..], false);
    TwoMotions();
    DrainExact(d0, g, q);
  }

  lemma TwoMotions()
    requires SMALL.Ok() && TableOk(ONE_WINDOW, SMALL)
    ensures !ScrollsOnce(BOTH_HELD, SMALL, [FIRST_MOTION, SECOND_MOTION], false)
  {
    var g, d := SMALL, BOTH_HELD;
    var q := [FIRST_MOTION, SECOND_MOTION];
    assert q[1..] == [SECOND_MOTION];
    assert ElevAt(d, g, 176) == 140 && Scrolls(d, g, 176);
    var d1 := Dispatched(d, g, FIRST_MOTION);
    assert d1 == BarMoved(d, g, 176) && d1.elev == [140];
    assert ElevAt(d1, g, 276) == 240 && Scrolls(d1, g, 276);
  }
}
