/** Whole runs of the window manager, and the smears they leave: pixels that the code forgets to
    repair. */
module Runs {
  import opened Geometry
  import opened Desk
  import opened WindowTable
  import opened Coalesce
  import opened Stacking

  /** The four strips of a drag outline. */
  predicate OnOutline(r: Rect, x: int, y: int) {
    Rect(r.x, r.y, r.w, OUTLINE).Has(x, y) || Rect(r.x, r.y + r.h - OUTLINE, r.w, OUTLINE).Has(x, y)
    || Rect(r.x, r.y, OUTLINE, r.h).Has(x, y) || Rect(r.x + r.w - OUTLINE, r.y, OUTLINE, r.h).Has(x, y)
  }

  /** Pixels that nobody will repair: an outline whose drag was forgotten, or a menu drawn
      after it was dismissed. */
  datatype Smear = Forgotten(r: Rect) | Ghost(r: Rect) {
    predicate Has(x: int, y: int) {
      match this
      case Forgotten(r) => OnOutline(r, x, y)
      case Ghost(r) => r.Has(x, y)
    }
  }

  function OutlineOf(d: Desk, g: Geo): Rect { Rect(d.drag.out.x, d.drag.out.y, g.UW(), g.UH()) }

  function MenuOutlineOf(d: Desk, g: Geo): Rect { Rect(d.menuDrag.out.x, d.menuDrag.out.y, g.menuW, g.MenuH()) }

  /** The smears after an event that no menu takes: a second grab that moves the outline forgets the
      first, and a drop that moves a window has the whole screen composited again. */
  function WindowSmears(s: seq<Smear>, d: Desk, g: Geo, e: Event): seq<Smear>
    requires d.Sized(g)
  {
    if PressGrabsAgain(d, g, e) then s + [Forgotten(OutlineOf(d, g))]
    else if ReleaseMoves(d, g, e) then []
    else s
  }

  lemma PressSmears(s: seq<Smear>, d: Desk, g: Geo, e: Event)
    requires d.Sized(g) && e.kind == Down && e.button == Left
    ensures PressGrabsAgain(d, g, e) ==> WindowSmears(s, d, g, e) == s + [Forgotten(OutlineOf(d, g))]
    ensures !PressGrabsAgain(d, g, e) ==> WindowSmears(s, d, g, e) == s
  {
  }

  /** The smears after any event: dropping a menu that was dismissed while dragged adds one. */
  function SmearsAfter(s: seq<Smear>, d: Desk, g: Geo, e: Event): seq<Smear>
    requires d.Sized(g)
  {
    if d.menuDrag.active then
      if DropsGhost(d, e) then s + [Ghost(MenuOutlineOf(d, g))] else s
    else if MenuOwns(d, g, e) then s
    else WindowSmears(s, d, g, e)
  }

  /** A held-back motion leaves the smears alone. */
  function SmearsDrained(s: seq<Smear>, d: Desk, g: Geo, q: seq<Event>, p: Pending): seq<Smear>
    requires g.Ok() && d.Sized(g)
    decreases |q|
  {
    if q == [] then s
    else if Held(d, q[0]) then SmearsDrained(s, d, g, q[1..], Pending(q[0].x, q[0].y))
    else
      var f := Flushed(d, g, p);
      SmearsDrained(SmearsAfter(s, f, g, q[0]), Dispatched(f, g, q[0]), g, q[1..], NoMotion)
  }

  // ---------- runs ----------

  /** Everything that reaches the window manager; a poll takes a whole queue of events. */
  datatype Job = Ask(r: Request) | Poll(q: seq<Event>) | Pixels

  function Done(d: Desk, g: Geo, j: Job): (d': Desk)
    requires g.Ok() && d.Sized(g)
    ensures d'.Sized(g)
  {
    match j
    case Ask(r) => Served(d, g, r)
    case Poll(q) => Drained(d, g, q, NoMotion)
    case Pixels => d
  }

  function SmearsDone(s: seq<Smear>, d: Desk, g: Geo, j: Job): seq<Smear>
    requires g.Ok() && d.Sized(g)
  {
    match j
    case Ask(r) => if r.PointerEvent? then SmearsAfter(s, d, g, r.e) else s
    case Poll(q) => SmearsDrained(s, d, g, q, NoMotion)
    case Pixels => s
  }

  function DoneAll(d: Desk, g: Geo, js: seq<Job>): (d': Desk)
    requires g.Ok() && d.Sized(g)
    ensures d'.Sized(g)
  {
    if js == [] then d else Done(DoneAll(d, g, js[..|js| - 1]), g, js[|js| - 1])
  }

  function SmearsOver(s: seq<Smear>, d: Desk, g: Geo, js: seq<Job>): seq<Smear>
    requires g.Ok() && d.Sized(g)
  {
    if js == [] then s
    else
      var k := |js| - 1;
      SmearsDone(SmearsOver(s, d, g, js[..k]), DoneAll(d, g, js[..k]), g, js[k])
  }

  // ---------- which runs end without smears ----------

  /** An event and the state that it meets. */
  datatype Moment = Moment(d: Desk, e: Event)

  /** A grab that moves the outline of a drag under way, or the drop of a menu that was dismissed while dragged. */
  predicate Smearing(g: Geo, m: Moment)
    requires m.d.Sized(g)
  {
    GrabsAgain(m.d, g, m.e) || DropsGhost(m.d, m.e)
  }

  ghost predicate AllSized(g: Geo, ms: seq<Moment>) { forall m :: m in ms ==> m.d.Sized(g) }

  /** The events of a queue that the draining loop does not hold back. */
  function DrainMoments(d: Desk, g: Geo, q: seq<Event>, p: Pending): (ms: seq<Moment>)
    requires g.Ok() && d.Sized(g)
    ensures AllSized(g, ms)
    decreases |q|
  {
    if q == [] then []
    else if Held(d, q[0]) then DrainMoments(d, g, q[1..], Pending(q[0].x, q[0].y))
    else
      var f := Flushed(d, g, p);
      [Moment(f, q[0])] + DrainMoments(Dispatched(f, g, q[0]), g, q[1..], NoMotion)
  }

  function JobMoments(d: Desk, g: Geo, j: Job): (ms: seq<Moment>)
    requires g.Ok() && d.Sized(g)
    ensures AllSized(g, ms)
  {
    match j
    case Ask(r) => if r.PointerEvent? then [Moment(d, r.e)] else []
    case Poll(q) => DrainMoments(d, g, q, NoMotion)
    case Pixels => []
  }

  /** Every pointer event of a run, apart from the drag motions held back. */
  function Moments(d: Desk, g: Geo, js: seq<Job>): (ms: seq<Moment>)
    requires g.Ok() && d.Sized(g)
    ensures AllSized(g, ms)
  {
    if js == [] then []
    else
      var k := |js| - 1;
      Moments(d, g, js[..k]) + JobMoments(DoneAll(d, g, js[..k]), g, js[k])
  }

  /** The smears after some moments. */
  ghost function Smeared(s: seq<Smear>, g: Geo, ms: seq<Moment>): seq<Smear>
    requires AllSized(g, ms)
  {
    if ms == [] then s
    else
      var k := |ms| - 1;
      SmearsAfter(Smeared(s, g, ms[..k]), ms[k].d, g, ms[k].e)
  }

  lemma {:induction false} SmearedJoin(s: seq<Smear>, g: Geo, a: seq<Moment>, b: seq<Moment>)
    requires AllSized(g, a) && AllSized(g, b)
    ensures AllSized(g, a + b) && Smeared(s, g, a + b) == Smeared(Smeared(s, g, a), g, b)
    decreases |b|
  {
    if b == [] {
      assert a + b == a;
    } else {
      var k := |b| - 1;
      SmearedJoin(s, g, a, b[..k]);
      assert (a + b)[..|a + b| - 1] == a + b[..k];
    }
  }

  lemma {:induction false} SmearsDrainedAt(s: seq<Smear>, d: Desk, g: Geo, q: seq<Event>, p: Pending)
    requires g.Ok() && d.Sized(g)
    ensures SmearsDrained(s, d, g, q, p) == Smeared(s, g, DrainMoments(d, g, q, p))
    decreases |q|
  {
    if q != [] {
      if Held(d, q[0]) {
        SmearsDrainedAt(s, d, g, q[1..], Pending(q[0].x, q[0].y));
      } else {
        var f := Flushed(d, g, p);
        var s1, d1, m := SmearsAfter(s, f, g, q[0]), Dispatched(f, g, q[0]), [Moment(f, q[0])];
        SmearsDrainedAt(s1, d1, g, q[1..], NoMotion);
        assert m[..0] == [];
        SmearedJoin(s, g, m, DrainMoments(d1, g, q[1..], NoMotion));
      }
    }
  }

  lemma {:induction false} SmearsOverAt(s: seq<Smear>, d: Desk, g: Geo, js: seq<Job>)
    requires g.Ok() && d.Sized(g)
    ensures SmearsOver(s, d, g, js) == Smeared(s, g, Moments(d, g, js))
    decreases |js|
  {
    if js != [] {
      var k := |js| - 1;
      var d1, s1 := DoneAll(d, g, js[..k]), SmearsOver(s, d, g, js[..k]);
      SmearsOverAt(s, d, g, js[..k]);
      SmearedJoin(s, g, Moments(d, g, js[..k]), JobMoments(d1, g, js[k]));
      match js[k]
      case Ask(r) => if r.PointerEvent? { assert [Moment(d1, r.e)][..0] == []; }
      case Poll(q) => SmearsDrainedAt(s1, d1, g, q, NoMotion);
      case Pixels =>
    }
  }

  /** Every smearing moment is followed by a drop that moves a window. */
  ghost predicate Mended(g: Geo, ms: seq<Moment>)
    requires AllSized(g, ms)
  {
    forall i :: 0 <= i < |ms| && Smearing(g, ms[i]) ==> MendedAfter(g, ms, i)
  }

  ghost predicate MendedAfter(g: Geo, ms: seq<Moment>, i: int)
    requires AllSized(g, ms)
  {
    exists j :: i < j < |ms| && 0 <= j && DropsMoved(ms[j].d, g, ms[j].e)
  }

  lemma {:induction false} SmearedIff(g: Geo, ms: seq<Moment>)
    requires AllSized(g, ms)
    ensures Smeared([], g, ms) == [] <==> Mended(g, ms)
    decreases |ms|
  {
    if ms != [] {
      var k := |ms| - 1;
      var m, before := ms[k], ms[..k];
      SmearedIff(g, before);
      if DropsMoved(m.d, g, m.e) {
        assert forall i :: 0 <= i < k ==> MendedAfter(g, ms, i);
      } else {
        assert !MendedAfter(g, ms, k);
        forall i | 0 <= i < k
          ensures MendedAfter(g, ms, i) == MendedAfter(g, before, i)
        {
          if j :| i < j < |ms| && DropsMoved(ms[j].d, g, ms[j].e) {
            assert before[j] == ms[j];
          }
        }
        assert forall i :: 0 <= i < k ==> before[i] == ms[i];
      }
    }
  }

  /** A run that starts without smears ends without smears exactly when every grab that
      forgets an outline and every drop of a dismissed menu was followed by a drop that moved a window. */
  lemma SmearFreeIff(d: Desk, g: Geo, js: seq<Job>)
    requires g.Ok() && d.Sized(g)
    ensures SmearsOver([], d, g, js) == [] <==> Mended(g, Moments(d, g, js))
  {
    SmearsOverAt([], d, g, js);
    SmearedIff(g, Moments(d, g, js));
  }

  // ---------- events that only draw and erase an outline ----------

  /** Nothing but windows can be touched, and no scrollbar is held. */
  predicate Idle(d: Desk) {
    !d.menu.active && !d.menuDrag.active && !d.bar.dragging && d.bar.arrow == 0 && d.bar.anchor == 0
  }

  /** A drag motion that moves the outline, a press on the title bar of the focused window, or a
      drop where the window already is. */
  predicate OnlyOutlines(d: Desk, g: Geo, e: Event)
    requires d.Sized(g)
  {
    match e.kind
    case Motion => d.drag.active && OutlineAt(d.drag, e.x, e.y, g.UW(), g.UH(), g) != d.drag.out
    case Down => e.button == Left && PressesTop(d, g, e)
    case Up => e.button == Left && d.drag.active && !ReleaseMoves(d, g, e)
    case Other => false
  }

  predicate PressesTop(d: Desk, g: Geo, e: Event)
    requires d.Sized(g)
  {
    var t := TopAt(d.z, d.pos, g, e.x, e.y);
    t != 0 && t == d.focused && t == d.z[|d.z| - 1] && !ButtonHit(d, g, t, e.x, e.y) && TitleHit(d, g, t, e.x, e.y)
  }

  // ---------- a run that leaves a smear ----------

  const FAR_MOTION := Event(Motion, 600, 320, NoButton, 1)
  const RELEASE := Event(Up, 100, 20, Left, 0)
  const TITLE_GRABBED := Drag(true, 1, Point(100, 20), Point(8, 16), Point(8, 16))

  /** The desk of a first window in the small geometry, by what is dragged. */
  function FirstWindow(drag: Drag): Desk {
    Opened(Initial(SMALL), SMALL, 1).(drag := drag)
  }

  lemma CreatedFirst()
    ensures SMALL.Ok() && Created(Initial(SMALL), SMALL, CONSOLE, true) == FirstWindow(NO_DRAG)
  {
  }

  lemma PressAt(drag: Drag)
    ensures SMALL.Ok() && PressesTop(FirstWindow(drag), SMALL, TITLE_PRESS)
    ensures Dispatched(FirstWindow(drag), SMALL, TITLE_PRESS) == FirstWindow(TITLE_GRABBED)
    ensures SmearsAfter([], FirstWindow(drag), SMALL, TITLE_PRESS) ==
            if drag.active && drag.out != Point(8, 16) then [Forgotten(Rect(drag.out.x, drag.out.y, SMALL.UW(), SMALL.UH()))] else []
  {
    var d := FirstWindow(drag);
    assert d.z == [1] && d.z[..0] == [] && Without([1], 1) == [];
    assert d.pos == [Point(8, 16)];
    assert TopAt(d.z, d.pos, SMALL, 100, 20) == 1;
  }

  lemma CarryAndRelease(s: seq<Smear>)
    ensures SMALL.Ok()
    ensures var d, e := FirstWindow(TITLE_GRABBED), FAR_MOTION;
            && Dispatched(d, SMALL, e) == FirstWindow(TITLE_GRABBED.(out := Point(508, 316)))
            && OnlyOutlines(d, SMALL, e) && SmearsAfter(s, d, SMALL, e) == s
    ensures var d, e := FirstWindow(TITLE_GRABBED), RELEASE;
            && Dispatched(d, SMALL, e) == FirstWindow(TITLE_GRABBED.(active := false))
            && OnlyOutlines(d, SMALL, e) && SmearsAfter(s, d, SMALL, e) == s
  {
    var d := FirstWindow(TITLE_GRABBED);
    assert d.pos == [Point(8, 16)] && d.pos[0 := Point(8, 16)] == d.pos;
  }

  // ---------- a run that leaves a ghost ----------

  const SUMMON := Event(Down, 300, 300, Button.Right, 2)
  const PIN_PRESS := Event(Down, 315, 307, Left, 1)
  const MENU_PRESS := Event(Down, 350, 310, Left, 1)
  const MENU_MOTION := Event(Motion, 550, 410, NoButton, 1)

  const SUMMONED := Menu(true, false, 300, 300, -1, {})
  const PINNED := Menu(true, true, 300, 300, -1, {})
  const DISMISSED := Menu(false, true, 300, 300, -1, {})
  const GHOST := Menu(false, true, 500, 400, -1, {})

  const MENU_GRABBED := Drag(true, 0, Point(350, 310), Point(300, 300), Point(300, 300))
  const MENU_CARRIED := Drag(true, 0, Point(350, 310), Point(300, 300), Point(500, 400))

  /** The empty small desktop, with this menu and menu drag. */
  function WithMenu(menu: Menu, drag: Drag): (d: Desk)
    requires SMALL.Ok()
    ensures d.Sized(SMALL)
  {
    Initial(SMALL).(menu := menu, menuDrag := drag)
  }

  lemma SummonAndPin()
    ensures SMALL.Ok()
    ensures Dispatched(Initial(SMALL), SMALL, SUMMON) == WithMenu(SUMMONED, NO_DRAG)
    ensures Dispatched(WithMenu(SUMMONED, NO_DRAG), SMALL, PIN_PRESS) == WithMenu(PINNED, NO_DRAG)
    ensures Dispatched(WithMenu(PINNED, NO_DRAG), SMALL, MENU_PRESS) == WithMenu(PINNED, MENU_GRABBED)
  {
    assert TopAt([], Initial(SMALL).pos, SMALL, 300, 300) == 0;
  }

  lemma CarryAndDismiss()
    ensures SMALL.Ok()
    ensures Dispatched(WithMenu(PINNED, MENU_GRABBED), SMALL, MENU_MOTION) == WithMenu(PINNED, MENU_CARRIED)
    ensures Served(WithMenu(PINNED, MENU_CARRIED), SMALL, KeyEvent(ESCAPE, 0)) == WithMenu(DISMISSED, MENU_CARRIED)
    ensures Dispatched(WithMenu(DISMISSED, MENU_CARRIED), SMALL, RELEASE) == WithMenu(GHOST, MENU_CARRIED.(active := false))
    ensures DropsGhost(WithMenu(DISMISSED, MENU_CARRIED), RELEASE)
  {
  }
}
