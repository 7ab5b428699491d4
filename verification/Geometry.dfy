/** Points, rectangles and the pixel geometry of the screen and its windows.
    The number of cells, the screen size and the number of window slots are parameters;
    the chrome measurements are the window manager's own. */
module Geometry {

  type Color = c: int | 0 <= c < 256

  const CELL_W := 8
  const CELL_H := 16
  const CONTENT_X := 8
  const CONTENT_Y := 32
  const SCROLLBAR_W := 16
  const TITLE_BAR_X := 5
  const TITLE_Y := 2
  const TITLE_BAR_H := 24
  const MENU_BTN_X := 14
  const MENU_BTN_W := 16
  const ELEV_H := 47
  const ELEV_THIRD := 15
  const ELEV_PAGE := 55
  const ELEV_LINE := 6
  const ANCHOR_H := 6
  const OUTLINE := 2
  const MENU_BORDER := 2
  const MENU_TITLE_H := 18
  const MENU_ITEM_H := 20
  const MENU_TOP := 22
  const MENU_PIN_X := 13
  const MENU_PIN_Y := 3
  const MENU_PIN_W := 26
  const MENU_PIN_H := 12
  const ORIGIN_X := 8
  const ORIGIN_Y := 16
  const CASCADE := 32

  const PANE_BG: Color := 11
  const WORKSPACE: Color := 9
  const PEN_BLACK: Color := 14
  const OUTLINE_COLOR: Color := 8

  datatype Point = Point(x: int, y: int)

  datatype Rect = Rect(x: int, y: int, w: int, h: int) {
    predicate Has(px: int, py: int) {
      x <= px < x + w && y <= py < y + h
    }

    predicate Inside(width: int, height: int) {
      0 <= x && 0 <= y && x + w <= width && y + h <= height
    }
  }

  /** The part of r that is also in s (empty when a side is not positive). */
  function Meet(r: Rect, s: Rect): (m: Rect)
    ensures forall px, py :: m.Has(px, py) <==> r.Has(px, py) && s.Has(px, py)
  {
    var ix := if r.x > s.x then r.x else s.x;
    var iy := if r.y > s.y then r.y else s.y;
    var ixe := if r.x + r.w < s.x + s.w then r.x + r.w else s.x + s.w;
    var iye := if r.y + r.h < s.y + s.h then r.y + r.h else s.y + s.h;
    Rect(ix, iy, ixe - ix, iye - iy)
  }

  /** Screen size, cells per window, number of window slots, width of the desktop menu in
      pixels and number of its items. */
  datatype Geo = Geo(fbW: int, fbH: int, cols: int, rows: int, slots: int, menuW: int, items: int) {
    // Width and height of a window's backing store.
    function UW(): int { 8 * (cols + 2) + 16 }
    function UH(): int { 16 * (rows + 3) }
    // Width and height of the client-visible cell area.
    function CW(): int { 8 * cols }
    function CH(): int { 16 * rows }

    // Whether window-local pixel (a, b) is in the cell area.
    predicate Content(a: int, b: int) {
      CONTENT_X <= a < CONTENT_X + CW() && CONTENT_Y <= b < CONTENT_Y + CH()
    }

    // Whether window-local pixel (a, b) exists.
    predicate Local(a: int, b: int) {
      0 <= a < UW() && 0 <= b < UH()
    }

    predicate OnScreen(x: int, y: int) {
      0 <= x < fbW && 0 <= y < fbH
    }

    // The whole window, and the strip or column at each of its edges.
    function Whole(): Rect { Rect(0, 0, UW(), UH()) }

    // The bar together with the separator row below it, window-local.
    function TitleRect(): Rect {
      Rect(TITLE_BAR_X, TITLE_Y, UW() - 2 * TITLE_BAR_X, TITLE_BAR_H + 1)
    }

    // The column of the scrollbar, window-local.
    function BarRect(): Rect {
      Rect(CONTENT_X + CW() + 1, CONTENT_Y, SCROLLBAR_W, CH())
    }

    // Travel of the elevator's top edge.
    function ElevMin(): int { CONTENT_Y + 8 }
    function ElevMax(): int { CONTENT_Y + CH() - 8 - ELEV_H }

    function MenuH(): int { MENU_TOP + 20 * items + MENU_BORDER }

    // The side conditions under which the window manager's constants fit together.
    predicate Ok() {
      1 <= cols && 4 <= rows && 1 <= slots
      && ORIGIN_X + UW() <= fbW <= 0xFFFF
      && ORIGIN_Y + UH() <= fbH <= 0xFFFF
      && 1 <= items && 4 <= menuW <= fbW && MenuH() <= fbH
    }
  }

  /** The screen and window of the original, with one slot. */
  const SMALL := Geo(1280, 768, 80, 24, 1, 120, 7)
}
