/** The highlight of the desktop menu: which rows are drawn highlighted although the pointer is not
    on them, and when. */
module Menus {
  import opened Geometry
  import opened Stacking
  import opened Desk
  import opened WindowTable
  import opened Runs

  /** The highlighted row is drawn so; a menu that does not show has none. */
  predicate Drawn(m: Menu) {
    Shining(m) <= m.lit && (!m.active ==> m.highlighted == -1 && m.lit == {})
  }

  /** Row i is drawn highlighted, and is not. */
  predicate Stuck(m: Menu, i: int) {
    m.active && i in m.lit && i != m.highlighted
  }

  /** A left press that chooses another item than the highlighted i from a pinned menu that stays. */
  predicate Strands(d: Desk, g: Geo, r: Request, i: int)
    requires g.Ok()
  {
    r.PointerEvent? && r.e.kind == Down && r.e.button == Left
    && d.menu.active && d.menu.pinned && !d.menuDrag.active && 0 <= i == d.menu.highlighted
    && var j := ItemAt(d, g, r.e.x, r.e.y); 0 <= j < g.items - 1 && j != i
  }

  /** The menu goes or is drawn afresh, the pointer comes to row i, or a press chooses it. */
  predicate Refreshes(d: Desk, g: Geo, r: Request, i: int)
    requires g.Ok()
  {
    if r.KeyEvent? then r.code == ESCAPE
    else if !r.PointerEvent? then false
    else if d.menuDrag.active then
      r.e.kind == Up && r.e.button == Left && d.menuDrag.out != Point(d.menu.x, d.menu.y)
    else if !MenuOwns(d, g, r.e) then false
    else
      var j := ItemAt(d, g, r.e.x, r.e.y);
      || (r.e.kind == Motion && j == i)
      || (r.e.kind == Down && r.e.button == Left &&
            if PinRect(d).Has(r.e.x, r.e.y) then d.menu.pinned else j == i || j == g.items - 1 || !d.menu.pinned)
  }

  lemma RowsKept(m: Menu, h: int, i: int)
    requires Drawn(m) && m.active && 0 <= i
    ensures Drawn(Highlighted(m, h)) && (Stuck(Highlighted(m, h), i) <==> Stuck(m, i) && h != i)
  {
  }

  // A press that the menu takes.
  lemma PressKept(d: Desk, g: Geo, e: Event, i: int)
    requires g.Ok() && Drawn(d.menu) && 0 <= i && !d.menuDrag.active && MenuOwns(d, g, e) && e.kind == Down && e.button == Left
    ensures var m := MenuHandled(d, g, e).menu;
            && Drawn(m)
            && (Stuck(m, i) <==> Strands(d, g, PointerEvent(e), i) || (Stuck(d.menu, i) && !Refreshes(d, g, PointerEvent(e), i)))
  {
    var j := ItemAt(d, g, e.x, e.y);
    assert j >= 0 ==> !PinRect(d).Has(e.x, e.y);
    assert j >= 0 ==> d.MenuRect(g).Has(e.x, e.y);
  }

  // Nothing but the menu's own events touches a menu that shows.
  lemma ElseKept(d: Desk, g: Geo, e: Event)
    requires g.Ok() && d.Sized(g) && d.menu.active
    ensures WindowsHandled(d, g, e).1.menu == d.menu
  {
  }

  lemma EventKept(d: Desk, g: Geo, e: Event, i: int)
    requires g.Ok() && d.Sized(g) && Drawn(d.menu) && 0 <= i
    ensures var m := Dispatched(d, g, e).menu;
            && Drawn(m)
            && (Stuck(m, i) <==> Strands(d, g, PointerEvent(e), i) || (Stuck(d.menu, i) && !Refreshes(d, g, PointerEvent(e), i)))
  {
    assert Dispatched(d, g, e).menu == Handled(d, g, e).1.menu;
    if !d.menuDrag.active && d.menu.active {
      RowsKept(d.menu, ItemAt(d, g, e.x, e.y), i);
      RowsKept(d.menu, -1, i);
      if MenuOwns(d, g, e) {
        if e.kind == Down && e.button == Left { PressKept(d, g, e, i); }
      } else {
        OffMenu(d, g, e);
        ElseKept(d, g, e);
        ElseKept(d.(menu := Highlighted(d.menu, -1)), g, e);
      }
    } else if !d.menuDrag.active {
      SummonKept(d, g, e);
    }
  }

  lemma OffMenu(d: Desk, g: Geo, e: Event)
    requires g.Ok() && d.menu.active && !MenuOwns(d, g, e)
    ensures ItemAt(d, g, e.x, e.y) == -1
  {
  }

  lemma SummonKept(d: Desk, g: Geo, e: Event)
    requires g.Ok() && d.Sized(g) && Drawn(d.menu) && !d.menu.active
    ensures Drawn(WindowsHandled(d, g, e).1.menu) && WindowsHandled(d, g, e).1.menu.lit == {}
  {
  }

  /** For every request, key and event: a row is stuck afterwards exactly when this press stranded
      it, or it was stuck and has not been drawn again. */
  lemma StuckStep(d: Desk, g: Geo, r: Request, i: int)
    requires g.Ok() && TableOk(d, g) && Drawn(d.menu) && 0 <= i
    ensures var m := Served(d, g, r).menu;
            Drawn(m) && (Stuck(m, i) <==> Strands(d, g, r, i) || (Stuck(d.menu, i) && !Refreshes(d, g, r, i)))
  {
    if r.PointerEvent? {
      EventKept(d, g, r.e, i);
    } else {
      OthersKept(d, g, r);
    }
  }

  lemma OthersKept(d: Desk, g: Geo, r: Request)
    requires g.Ok() && d.Sized(g) && Drawn(d.menu) && !r.PointerEvent?
    ensures Served(d, g, r).menu == if r.KeyEvent? && r.code == ESCAPE then Dismissed(d).menu else d.menu
  {
    match r
    case OwnerExits(exited) => ReapedMenu(d, g, exited, 0);
    case _ =>
  }

  lemma {:induction false} ReapedMenu(d: Desk, g: Geo, exited: set<int>, i: nat)
    requires d.Sized(g) && i <= g.slots
    ensures Reaped(d, g, exited, i).menu == d.menu
    decreases g.slots - i
  {
    if i < g.slots { ReapedMenu(if d.types[i] != FREE && i + 1 in exited then Closed(d, g, i + 1) else d, g, exited, i + 1); }
  }

  // The desk that request n of a run meets.
  function Reached(d: Desk, g: Geo, rs: seq<Request>, n: nat): (d': Desk)
    requires g.Ok() && d.Sized(g) && n <= |rs|
    ensures d'.Sized(g)
  {
    if n == 0 then d else Served(Reached(d, g, rs, n - 1), g, rs[n - 1])
  }

  lemma {:induction false} ReachedIs(d: Desk, g: Geo, rs: seq<Request>, n: nat)
    requires g.Ok() && d.Sized(g) && n <= |rs|
    ensures Reached(d, g, rs, n) == ServedAll(d, g, rs[..n])
  {
    if n > 0 {
      ReachedIs(d, g, rs, n - 1);
      assert rs[..n][..n - 1] == rs[..n - 1];
    }
  }

  ghost predicate StrandsAt(d: Desk, g: Geo, rs: seq<Request>, i: int, k: nat)
    requires g.Ok() && d.Sized(g) && k < |rs|
  {
    Strands(Reached(d, g, rs, k), g, rs[k], i)
  }

  ghost predicate RefreshesAt(d: Desk, g: Geo, rs: seq<Request>, i: int, k: nat)
    requires g.Ok() && d.Sized(g) && k < |rs|
  {
    Refreshes(Reached(d, g, rs, k), g, rs[k], i)
  }

  // Request k of the first n strands row i, and none of them after it refreshes it.
  ghost predicate StrandedAt(d: Desk, g: Geo, rs: seq<Request>, n: nat, i: int, k: nat)
    requires g.Ok() && d.Sized(g) && n <= |rs|
  {
    k < n && StrandsAt(d, g, rs, i, k) && forall j: nat :: k < j < n ==> !RefreshesAt(d, g, rs, i, j)
  }

  lemma {:induction false} ReachedOk(d: Desk, g: Geo, rs: seq<Request>, n: nat)
    requires g.Ok() && TableOk(d, g) && Drawn(d.menu) && n <= |rs|
    ensures TableOk(Reached(d, g, rs, n), g) && Drawn(Reached(d, g, rs, n).menu)
  {
    if n > 0 {
      ReachedOk(d, g, rs, n - 1);
      ServedOk(Reached(d, g, rs, n - 1), g, rs[n - 1]);
      StuckStep(Reached(d, g, rs, n - 1), g, rs[n - 1], 0);
    }
  }

  // Row i is stuck when request n arrives.
  ghost predicate StuckAt(d: Desk, g: Geo, rs: seq<Request>, i: int, n: nat)
    requires g.Ok() && d.Sized(g) && n <= |rs|
  {
    Stuck(Reached(d, g, rs, n).menu, i)
  }

  lemma StuckNext(d: Desk, g: Geo, rs: seq<Request>, i: int, n: nat, m: nat)
    requires g.Ok() && TableOk(d, g) && Drawn(d.menu) && 0 <= i && n < |rs| && m == n + 1
    ensures StuckAt(d, g, rs, i, m) <==> StrandsAt(d, g, rs, i, n) || (StuckAt(d, g, rs, i, n) && !RefreshesAt(d, g, rs, i, n))
  {
    ReachedOk(d, g, rs, n);
    StuckStep(Reached(d, g, rs, n), g, rs[n], i);
  }

  lemma {:induction false} StuckAfter(d: Desk, g: Geo, rs: seq<Request>, n: nat, i: int)
    requires g.Ok() && TableOk(d, g) && !d.menu.active && Drawn(d.menu) && 0 <= i && n <= |rs|
    ensures StuckAt(d, g, rs, i, n) <==> exists k: nat :: StrandedAt(d, g, rs, n, i, k)
  {
    if n > 0 {
      StuckAfter(d, g, rs, n - 1, i);
      StuckNext(d, g, rs, i, n - 1, n);
      OneMoreRequest(d, g, rs, n - 1, n, i);
    }
  }

  lemma OneMoreRequest(d: Desk, g: Geo, rs: seq<Request>, n: nat, m: nat, i: int)
    requires g.Ok() && d.Sized(g) && n < |rs| && m == n + 1
    ensures (exists k: nat :: StrandedAt(d, g, rs, m, i, k))
            <==> StrandsAt(d, g, rs, i, n) || ((exists k: nat :: StrandedAt(d, g, rs, n, i, k)) && !RefreshesAt(d, g, rs, i, n))
  {
    forall k: nat | k < n
      ensures StrandedAt(d, g, rs, m, i, k) <==> StrandedAt(d, g, rs, n, i, k) && !RefreshesAt(d, g, rs, i, n)
    {
    }
    assert StrandedAt(d, g, rs, m, i, n) <==> StrandsAt(d, g, rs, i, n);
  }

  /** Over every run: a row ends up stuck exactly when some press on a pinned menu chose another item
      while it was highlighted, and since then neither the menu nor the row has been drawn again. */
  lemma StuckIff(d: Desk, g: Geo, rs: seq<Request>, i: int)
    requires g.Ok() && TableOk(d, g) && !d.menu.active && Drawn(d.menu) && 0 <= i
    ensures Drawn(ServedAll(d, g, rs).menu)
    ensures Stuck(ServedAll(d, g, rs).menu, i) <==> exists k: nat :: StrandedAt(d, g, rs, |rs|, i, k)
  {
    StuckAfter(d, g, rs, |rs|, i);
    assert StuckAt(d, g, rs, i, |rs|) == Stuck(Reached(d, g, rs, |rs|).menu, i);
    ReachedOk(d, g, rs, |rs|);
    ReachedIs(d, g, rs, |rs|);
    assert rs[..|rs|] == rs;
  }

  // ---------- a run that strands a row ----------

  const HOVER := Event(Motion, 350, 350, NoButton, 0)
  const CHOOSE := Event(Down, 350, 390, Left, 1)
  const HOVERED := Menu(true, true, 300, 300, 1, {1})
  const STRANDED := Menu(true, true, 300, 300, -1, {1})

  lemma HoverAndChoose()
    ensures SMALL.Ok()
    ensures Dispatched(WithMenu(PINNED, NO_DRAG), SMALL, HOVER) == WithMenu(HOVERED, NO_DRAG)
    ensures Dispatched(WithMenu(HOVERED, NO_DRAG), SMALL, CHOOSE) == WithMenu(STRANDED, NO_DRAG).(sent := [Spawn(3)])
  {
    assert {1} - {3} == {1} && {} + {1} == {1};
  }
}
