# Ouroboros in Dafny

A model of the parts of the Ouroboros user land whose correctness is not visible from any one
function: the window manager, the supervisors' spawn protocol, the Markdown viewer, the text
editor, the shell's path resolver and the WMF1 font object. Screen size, number of cells, window
slots, processor ids, line limits and buffer sizes are parameters with the side conditions the
code needs; theorems are over all their values. `dafny verify dfyconfig.toml` checks everything.

What is stored in arrays and changed in place in the sources is stored in arrays and changed in
place here; each such method is proved against a function on values, and the promises are proved
about those functions, or kept by the methods as invariants over runs.

**Window manager** (`ouroboros/oriscwm.c`).
- `Geometry` holds the pixel layout, `Stacking` the one definition of which window is on top.
- `RasterSpec` says what a line and an ellipse are; `Terminal` is the console, one character at a
  time. `Surface` is a window's backing store with the rasterisers, the strip-batching console
  renderer and the dirty box, each proved pixel-exact.
- `Desk` is everything about the window manager that is not pixels, with every transition;
  `WindowTable` proves its invariant over every run; `Coalesce` proves for every pointer queue
  exactly when draining it with drag motions collapsed is dispatching every event; `ScrollMap`
  proves the two scrollbar maps; `Runs` says what whole runs do, and which smears they leave;
  `Menus` which rows of the menu are left drawn highlighted; `Pointing` what pointer and keys are
  for, over whole drags, without the transitions' own definitions.
- `WindowManager` is the class with the screen, the menu overlay, the stack array and the windows'
  surfaces. Its ghost set `Fine()` holds the screen pixels that show what should be visible or are
  excused: by the outline of a drag under way, by paint not copied yet, or by a *smear*, a pixel
  set that the code itself forgets (the outline of a drag when a window is grabbed again in the
  middle and its outline moves; a dragged menu drawn again after Escape dismissed it). Every method
  ensures `old(Fine()) <= Fine()`, so no method makes a right pixel wrong, and says exactly which
  smears there are afterwards: a grab that moves the outline of a drag under way and the drop of a
  dismissed menu add one, a drop that moves a window recomposes the whole screen and removes them
  all, nothing else changes them. `Run` is the main theorem.

**Spawn protocol** (`ouroboros/supervisor.c`). `RoundRobin` is the choice of a CPU; `Supervisor`
is one supervisor, as a class and as the function of its state that the class is proved against;
`SpawnProtocol` is all of them with first-in-first-out mailboxes. One step is one message sent,
taken, handled, one peer told of a closing terminal, or one program exiting, in any interleaving.
`Fairness` is the handler over many requests; `Strays` says which programs a closed or halted
supervisor leaves behind. What the directory, the loader and the fetch of a request answer is an
arbitrary input of the step.

**Markdown viewer** (`ouroboros/programs/mdview.c`). `Wrap` is greedy word wrap and its
optimality, `Layout` the line-by-line layout as a function, `Fences` says from the source alone
what each line adds to it, `Viewer` the class that cuts the document in place and fills the bounded
display list.

**Editor** (`ouroboros/programs/edit.c`). `EditorModel` is the list of lines, keys, saving and
loading; `FlatText` the same text as one byte string with the cursor an offset in it; `Editor` the
class over fixed arrays of lines.

**Paths** (`ouroboros/shell.c`). `PathSpec` folds components over a stack; `Shell` resolves in
place in character buffers and keeps the working directory.

**Fonts** (`tools/bdf.py`, `tools/gen_wm_font.py`, `ouroboros/oriscwm.c`). `Bake` places ink in
cells, `Font` encodes the object and reads it back.

## Where the code does not do what one would wish

Each is kept as it is and has its exact condition, unless the item says otherwise.
- The oval search works on wrapped 32-bit words. It finds the rows of the ellipse if and only if
  each row meets `RasterSpec.RowFits` (`RasterSpec.ReachIff`, `RowsAreEllipseIff`, all radii): always
  when rx*ry is at most 32767; up to 46340 if and only if no first sum behind a row exceeds
  0x7FFF_FFFF, a row that fails running to the full radius (`EdgeDecides`); and never when the
  product of the squares wraps to a negative word, as from 46341 to 65535 (`NegativeFails`,
  `EllipseRightIff`). The oval that fills a pane of 640 by 384 pixels gets a centre row of one pixel
  (`PaneOvalWrong`).
- A fill wider than the scratch row takes its far columns from the memory behind the row. A
  rectangle is solid if and only if the condition of `Surface.SolidIff` holds, the rows of a
  frame those of `Surface.SolidFrameIff`, the rows painted for an oval that of
  `Surface.OvalSolidIff`, which is `EllipseSolidIff` where those rows are the ellipse; each has an
  input for which it is not (`Surface.WideFillNotSolid`, `WideFrameNotSolid`,
  `WideOvalNotSolid`).
- A scrollbar grab in the middle of a drag makes collapsed motions observable: draining equals
  dispatching if and only if, between any two other events, at most one drag motion moves an
  elevator that a client listens to (`Coalesce.DrainExact`; `Coalesce.OverlappingGrabsDiffer` is a
  queue for which it does not).
- A title-bar grab in the middle of a drag leaves the first outline behind when it moves it
  (`WindowManager.ForgottenOutline`), and Escape during a menu drag lets the menu be drawn again
  where it is dropped (`WindowManager.GhostMenu`); both runs end with nothing held and a wrong
  pixel. The smears are logged, and the log is empty at the end of a run if and only if each was
  followed by a drop that moved a window (`Runs.SmearFreeIff`). For the pixels this goes one way:
  without smears and with nothing held every pixel is right (`SettledIsRight`), while a logged smear
  may have been painted over since.
- Choosing an item of a pinned menu redraws that item, not the highlighted one. If they differ, as
  when the pointer came to the item without a motion, the old row is left drawn highlighted while
  nothing is highlighted (`WindowManager.StuckHighlight` is such a run). Over every run of requests
  a row is left so if and only if such a press stranded it and neither the row nor the whole menu
  has been drawn since (`Menus.StuckIff`).
- A program with a closed terminal's hint can still be started, by another CPU's supervisor that was
  asked directly, behind the cull (`Strays.StrayRun`). Once it has served the cull, a CPU stays
  without that terminal's programs if and only if it starts no program with the hint
  (`Strays.ClearIff`); it never does if programs with the hint ask only the terminal's own
  supervisor (`Strays.NoneLeft`).
- The editor's loader drops the line ended by the last newline a buffer has room for
  (`EditorModel.SaveLoad`, if and only if).
- Joining two editor lines loses bytes if and only if they do not fit one line
  (`EditorModel.JoinLosesIff`).
- Advances of glyphs from the 241st on are read from behind the cache (`Font.AdvancesRightIff`).
- A wrapped line drawn from its source slice is wider than the wrap counted if and only if the slice
  has two spaces in a row (`Layout.WrappedWidths`).
- The comment on `resolve_path` says that a truncated result may be invalid. From an absolute
  working directory it is always a normal path, though of a truncated argument
  (`Shell.ResolvedIsNormal`).

## Model

| member | source | states |
|---|---|---|
| RasterSpec.PenFollowsLine | ouroboros/oriscwm.c:4710-4726 | after k rounds the error-term loop stands on the k-th pixel of the rounded true line, and its error term is the remainder of the division it never performs |
| RasterSpec.PenStops | ouroboros/oriscwm.c:4710-4726 | for all endpoints the loop's exit test holds after exactly max(dx, dy) rounds and not before |
| RasterSpec.LineEndpoints | ouroboros/oriscwm.c:4710-4726 | the first pixel is the first endpoint, the last the second |
| RasterSpec.LineConnected | ouroboros/oriscwm.c:4710-4726 | consecutive pixels are distinct king-move neighbours |
| RasterSpec.LineInBox | ouroboros/oriscwm.c:4710-4726 | no pixel leaves the bounding box of the endpoints |
| RasterSpec.LineNear | ouroboros/oriscwm.c:4710-4726 | every pixel is within half a pixel of the true line: twice the cross product is at most max(dx, dy) |
| RasterSpec.DrawnIsLine | ouroboros/oriscwm.c:4710-4726 | the set of pixels the loop visits is exactly the set of pixels of the line |
| RasterSpec.RowInterval | ouroboros/oriscwm.c:4760-4810 | a row of the closed ellipse is the interval given by its half-width |
| RasterSpec.EllipseRows | ouroboros/oriscwm.c:4833-4851 | the scanlines from -ry to ry hold exactly the pixels of the ellipse |
| RasterSpec.EllipseBox | ouroboros/oriscwm.c:4814-4851 | the ellipse lies in the box of its radii |
| RasterSpec.EllipseFits | ouroboros/oriscwm.c:4799-4838 | with rx*ry at most 32767 every product and sum of the search fits a signed 32-bit word |
| RasterSpec.FitTest | ouroboros/oriscwm.c:4799-4810 | with rx*ry at most 32767 the fit test on wrapped 32-bit words decides membership in the ellipse |
| RasterSpec.FitsIsWrapped | ouroboros/oriscwm.c:4799-4810 | for all radii and offsets the chain of wrapped products and sums compares the wrapped sum with the wrapped product |
| RasterSpec.ReachIff | ouroboros/oriscwm.c:4799-4838 | for all radii the search finds the half-width of a row if and only if the wrapped sums stay at or below the wrapped product up to that half-width and exceed it just behind |
| RasterSpec.EdgeDecides | ouroboros/oriscwm.c:4799-4838 | with rx*ry at most 46340 a row is right if and only if the first sum behind it is at most 0x7FFF_FFFF; otherwise the search runs to the full radius |
| RasterSpec.NegativeFails | ouroboros/oriscwm.c:4799-4838 | when the product wraps to a negative word the centre row is one pixel |
| RasterSpec.EllipseRightIff | ouroboros/oriscwm.c:4760-4851 | with rx*ry at most 65535 all rows are right if and only if rx*ry is at most 46340 and no first sum behind a row exceeds 0x7FFF_FFFF |
| RasterSpec.SmallIsRight | ouroboros/oriscwm.c:4760-4851 | with rx*ry at most 32767 all rows are right |
| RasterSpec.PaneOvalWrong | ouroboros/oriscwm.c:4841-4851 | radii 320 and 192: the centre row is one pixel instead of 641 |
| RasterSpec.RowsAreEllipseIff | ouroboros/oriscwm.c:4760-4879 | for all radii the rows that the search finds make up exactly the ellipse, and their ends its ends, if and only if each row is right |
| RasterSpec.NearerIsWider | ouroboros/oriscwm.c:4833-4851 | rows nearer to the centre are no narrower |
| Surface.Surface.BlitRow | ouroboros/oriscwm.c:4644-4680 | stores exactly the given bytes at exactly the content pixels of the row, clipped on every side |
| Surface.Surface.SetPixel | ouroboros/oriscwm.c:4693-4697 | sets one content pixel, or nothing outside the content area |
| Surface.Surface.DrawLine | ouroboros/oriscwm.c:4710-4726 | paints exactly the content pixels of the line and no other pixel |
| Surface.Surface.DrawRectFill | ouroboros/oriscwm.c:4731-4737 | paints exactly the rectangle; columns past the scratch row take the bytes that follow the row in memory |
| Surface.SolidIff | ouroboros/oriscwm.c:4731-4737 | a rectangle fill is one solid colour if and only if its visible part ends within a scratch row of its left edge, or nothing of it is visible |
| Surface.WideFillNotSolid | ouroboros/oriscwm.c:4731-4737 | a rectangle for which it is not |
| Surface.SolidFrameIff | ouroboros/oriscwm.c:4742-4758 | the two rows of a frame are one solid colour if and only if neither is visible or their visible part ends within a scratch row of their left end |
| Surface.WideFrameNotSolid | ouroboros/oriscwm.c:4742-4758 | a frame for which they are not |
| Surface.OvalSolidIff | ouroboros/oriscwm.c:4833-4851 | for all radii a filled oval is one solid colour if and only if each visible row that the search finds ends within a scratch row of its left end |
| Surface.EllipseSolidIff | ouroboros/oriscwm.c:4833-4851 | where the rows are the ellipse, it is if and only if the visible row nearest to the centre does |
| Surface.WideOvalNotSolid | ouroboros/oriscwm.c:4833-4851 | an ellipse with rx*ry of 15000 that is not |
| Surface.Surface.DrawRectOutline | ouroboros/oriscwm.c:4742-4758 | paints exactly the one-pixel frame: its rows from the scratch row and what follows it, its columns in the pen colour |
| Surface.Surface.EllipseHx | ouroboros/oriscwm.c:4799-4810 | for all radii the largest offset up to which every offset passes the fit test on wrapped 32-bit words |
| Surface.Surface.DrawOvalFill | ouroboros/oriscwm.c:4841-4851 | for all radii paints exactly the rows that the search finds, which are exactly the content pixels of the ellipse whenever every row is right; columns past the scratch row take the bytes that follow it; a degenerate oval is a rectangle |
| Surface.Surface.DrawOvalOutline | ouroboros/oriscwm.c:4870-4879 | for all radii paints exactly the two ends of each row that the search finds, those of the ellipse whenever every row is right; a degenerate oval is a frame |
| Surface.Surface.FlushStrip | ouroboros/oriscwm.c:4894-4956 | paints exactly the strip's cells, clipped to the row |
| Surface.Surface.ScrollUp | ouroboros/oriscwm.c:4970-5005 | moves the content up one cell row and clears the last; the rest stays |
| Surface.Surface.RenderBuffer | ouroboros/oriscwm.c:5035-5119 | pixel for pixel and cursor for cursor what the one-character-at-a-time terminal shows; the strip never exceeds a row |
| Terminal.RunAppend | ouroboros/oriscwm.c:5035-5119 | rendering a + b is rendering a and then b |
| Terminal.Step | ouroboros/oriscwm.c:5040-5112 | every character, control or not, keeps the grid's shape and the cursor in range |
| Terminal.EachCharacter | ouroboros/oriscwm.c:5040-5112 | where the cursor goes and what each cell shows after a newline, a return, a backspace, a printable and any other character, told from the grid before |
| Terminal.LinesStand | ouroboros/oriscwm.c:5035-5119 | lines of text shorter than a row, joined by newlines, stand one below the other from the cursor's row on, each from column 0 and with everything else as it was, moved up by the rows that are missing |
| Terminal.PrintThenBackspace | ouroboros/oriscwm.c:5076-5090 | a printed character followed by a backspace restores the cursor and blanks the cell, away from the right edge |
| Surface.Surface.MarkDirty | ouroboros/oriscwm.c:2040-2064 | the box becomes the least box holding the old box and the visible part of the new rectangle |
| Surface.Box.GrowCovers | ouroboros/oriscwm.c:2040-2064 | growing keeps every pixel of the box and takes in every visible pixel of the rectangle |
| Surface.Box.GrowLeast | ouroboros/oriscwm.c:2040-2064 | no smaller box does |
| Surface.Surface.VectorWrite | ouroboros/oriscwm.c:5479-5610 | every pixel shows what the geometry of the request says, and every pixel that changed is a content pixel in the dirty box, margins for ellipses included |
| Surface.Surface.Paint | ouroboros/oriscwm.c:4830-5610 | picture, cursor and pen after a console or vector request are a function of those before, the same for every execution, and every pixel that changed is in the dirty box |
| WindowManager.WindowManager.CompositeStack | ouroboros/oriscwm.c:1898-1964 | occlusion fast path and bottom-to-top walk give the same pixels: the topmost window's, and no change where there is no window |
| WindowManager.WindowManager.CompositeMenuOverlay | ouroboros/oriscwm.c:1868-1880 | the menu's pixels over the part of the rectangle it covers |
| WindowManager.WindowManager.CompositeScreenRect | ouroboros/oriscwm.c:1973-1977 | every pixel of the rectangle under a window or the menu shows what should be visible; all others are untouched |
| WindowManager.WindowManager.Recompose | ouroboros/oriscwm.c:1998-2007 | every pixel of the rectangle shows what should be visible, workspace colour included |
| WindowManager.WindowManager.CompositeWindowDirty | ouroboros/oriscwm.c:2069-2080 | copies the dirty box and empties it without making any pixel wrong |
| WindowManager.WindowManager.DrainWindow | ouroboros/oriscwm.c:4643-5610 | a burst of requests followed by one copy of the dirty box makes no right pixel wrong, leaves nothing pending, and leaves in the window the picture that the requests one by one make |
| WindowManager.WindowManager.BurstFromClean | ouroboros/oriscwm.c:2039-2080 | from any coherent screen with nothing pending, drags and smears included, a burst of console strips, scrolls, clears, lines, rectangles and ovals into one window, followed by one copy, leaves it coherent and clean, with exactly the pixels that the requests' geometry says wherever there is no outline and no smear |
| WindowManager.WindowManager.BurstEagerly | ouroboros/oriscwm.c:2039-2080 | copying after every request instead gives the same pixels there |
| WindowManager.WindowManager.SetFocus | ouroboros/oriscwm.c:1575-1582 | exactly the focused window's title bar is painted focused, on the screen too |
| WindowManager.WindowManager.RefocusToTopmost | ouroboros/oriscwm.c:1690-1698 | focus goes to the top of the stack, 0 when it is empty |
| WindowManager.WindowManager.ZRemove | ouroboros/oriscwm.c:3576-3587 | the stack loses exactly that window and keeps the order of the others |
| WindowManager.WindowManager.RaiseWindow | ouroboros/oriscwm.c:5816-5841 | the window moves to the top and is focused; the screen stays coherent |
| WindowManager.WindowManager.HandleNewWindow | ouroboros/oriscwm.c:3387-3570 | the first free slot is opened, placed, stacked on top, focused and shown, with cursor home and pen reset, and every pixel of its store is frame, title bar with an empty title, scrollbar or face; on every failure neither state nor pixels change; no right pixel becomes wrong |
| WindowManager.WindowManager.WindowTeardown | ouroboros/oriscwm.c:3929-3954 | the window leaves all tables, focus goes to the topmost, and what was beneath is shown |
| WindowManager.WindowManager.HandleDestroyWindow | ouroboros/oriscwm.c:3958-3970 | the same for a live window, nothing for any other number |
| WindowManager.WindowManager.ScanOwnerExits | ouroboros/oriscwm.c:4349-4390 | tears down exactly the windows whose owners have exited |
| WindowTable.ReapedExactly | ouroboros/oriscwm.c:4349-4390 | exactly the live windows of exited owners are gone from table and stack, and no other has moved |
| WindowManager.WindowManager.TopmostWindowAt | ouroboros/oriscwm.c:5856-5870 | finds the top window under a point, 0 when there is none |
| WindowManager.WindowManager.ShowMenu | ouroboros/oriscwm.c:6429-6448 | the menu is clamped onto the screen, and every pixel of its rectangle, overlay and screen, shows the menu; the screen stays coherent |
| WindowManager.WindowManager.DismissMenu | ouroboros/oriscwm.c:6453-6460 | the menu goes and what was beneath is shown |
| WindowManager.WindowManager.Highlight | ouroboros/oriscwm.c:6465-6473 | only the item left and the item entered are redrawn, and the overlay shows the menu as before |
| WindowManager.WindowManager.SelectItem | ouroboros/oriscwm.c:6480-6537 | what a menu item asks for is recorded once, and the overlay shows the menu with every row as it was drawn last |
| WindowManager.StuckHighlight | ouroboros/oriscwm.c:6480-6513 | from the empty desktop, a run after which the menu highlights nothing and every pixel of it shows the picture with row 1 highlighted |
| WindowManager.WindowManager.EraseOutline | ouroboros/oriscwm.c:5911-5917 | every pixel of the four strips shows what should be visible again |
| WindowManager.WindowManager.DrawOutline | ouroboros/oriscwm.c:5878-5899 | writes nothing but the four strips |
| WindowManager.WindowManager.MoveDrag | ouroboros/oriscwm.c:6681-6720 | the outline is erased, drawn at its new place and nothing else is touched; no right pixel becomes wrong |
| WindowManager.WindowManager.DropDrag | ouroboros/oriscwm.c:6730-6772 | the window jumps to its outline; if it moved, every pixel of the screen is right and no smear is left |
| WindowManager.WindowManager.LineStep | ouroboros/oriscwm.c:6040-6051 | one step of the elevator, clamped, and the bar shows it |
| WindowManager.WindowManager.BarRepaint | ouroboros/oriscwm.c:6025-6036 | the bar of the window shows its elevator where it is and what is held of it, and so does every screen pixel of it that is not covered |
| WindowManager.WindowManager.PressBar | ouroboros/oriscwm.c:6058-6090 | each part of the scrollbar does what the state model says, and the bar shows it |
| WindowManager.WindowManager.DragBar | ouroboros/oriscwm.c:6095-6107 | the elevator follows the pointer, clamped to its track; when it moves the bar shows it |
| WindowManager.WindowManager.HandleSetScroll | ouroboros/oriscwm.c:6117-6142 | the elevator goes where the offset maps to and the bar shows it; nothing while it is dragged |
| WindowManager.WindowManager.HandlePointer | ouroboros/oriscwm.c:6560-6772 | every pointer event, menu dragging included, does to the state what the state model says, makes no right pixel wrong and changes the smears as the smear model says |
| WindowManager.WindowManager.DispatchPointerEvent | ouroboros/oriscwm.c:6854-6905 | the same, and an unconsumed event reaches the focused window's subscriber in content coordinates |
| Pointing.PassedOn | ouroboros/oriscwm.c:6854-6905 | an event that is not consumed adds exactly one message if the pointer is over the cells of the focused window and that has a subscriber: to it, with the event's kind, button and state and the place in the cells' coordinates; otherwise none |
| Pointing.CellsAreTheClients | ouroboros/oriscwm.c:6681-6728 | with nothing held and no menu, an event over the cells of the top window is not consumed; a left press raises and focuses the window first, and its subscriber hears of it |
| Pointing.DragMoves | ouroboros/oriscwm.c:6681-6772 | a press on a title bar, any motions and a release move that window by as much as the pointer, as far as the screen allows, raise and focus it, and do nothing else; also with the motions collapsed |
| Pointing.MenuMoves | ouroboros/oriscwm.c:6566-6612 | the same for a pinned menu dragged by its title |
| Pointing.PinsAndGoes | ouroboros/oriscwm.c:6618-6665 | what a press on the pin and off the menu does |
| Pointing.SummonedHere | ouroboros/oriscwm.c:6429-6448 | a summoned menu is as near the pointer as the screen allows, unpinned and with nothing highlighted |
| Pointing.ItemIsRow | ouroboros/oriscwm.c:6392-6403 | an item is hit exactly on its row |
| Pointing.ItemChosen | ouroboros/oriscwm.c:6480-6537 | a press on a row asks for exactly that item, once; the menu stays only if it is pinned and the item is not the last |
| Pointing.BarParts | ouroboros/oriscwm.c:5956-6090 | a press on the bar sends the elevator to the end from an anchor, a line from an arrow, a page towards the pointer from the cable, never off its track, and holds it from its box |
| Pointing.ElevatorFollows | ouroboros/oriscwm.c:6095-6107 | a held elevator moves by as much as the pointer, as far as its track goes |
| Pointing.OffsetTold | ouroboros/oriscwm.c:6009-6020 | exactly the window's pointer subscriber is told, once, an offset in range, 0 at the top and the last at the bottom; nobody when everything fits |
| Pointing.ArrowHeld | ouroboros/oriscwm.c:6040-6051 | a held arrow steps a line its way each time, and its release tells the client |
| Pointing.Cascades | ouroboros/oriscwm.c:3387-3570 | while there is slack each new window is placed a step further right and down |
| WindowManager.WindowManager.PollPointerEvents | ouroboros/oriscwm.c:6916-6936 | draining a queue with drag motions collapsed to the latest does to state and smears what the draining model says |
| WindowManager.WindowManager.HandleKey | ouroboros/oriscwm.c:6974-7028 | Escape dismisses the menu, an unpinned menu swallows keys, all others reach the focused window's subscriber |
| Pointing.KeyGoes | ouroboros/oriscwm.c:6974-7028 | where each key goes, told from the tables: to the menu, to nobody, or once to the focused window's subscriber |
| WindowManager.WindowManager.HandleSetTitle | ouroboros/oriscwm.c:3983-4052 | the title of the window meant, 0 being the first live one, becomes the text and is shown in its bar; a dead window, a text too long or one that cannot be fetched changes nothing |
| WindowManager.WindowManager.constructor | ouroboros/oriscwm.c:2585-2590 | the empty desktop: every pixel is workspace colour and everything is in order |
| WindowManager.WindowManager.SettledIsRight | ouroboros/oriscwm.c:1867-2007 | with nothing held, pending or smeared, every pixel shows the menu, else the topmost window, else the workspace colour; and where a menu is, the menu's own picture |
| WindowManager.WindowManager.Run | ouroboros/oriscwm.c:7250-7323 | over every run of requests, keys, pointer events, bursts and titles: the screen is coherent, the table in order, exactly the focused title painted focused, and the smears exactly those of the smear model, and the overlay shows the menu as it was drawn last; a run that ends without smears and with nothing held leaves every pixel right |
| Runs.SmearFreeIff | ouroboros/oriscwm.c:6560-6772 | the log of smears is empty at the end of a run if and only if every grab that moved the outline of a drag under way and every drop of a dismissed menu was followed by a drop that moved a window |
| Runs.SmearsOverAt | ouroboros/oriscwm.c:6916-6936 | the smears of a run are those of its pointer events one by one, held-back motions left out |
| Menus.StuckStep | ouroboros/oriscwm.c:6465-6772 | for every request, key and event a row is drawn highlighted without being so exactly when this press stranded it, or it was before and has not been drawn again |
| Menus.StuckIff | ouroboros/oriscwm.c:6465-6772 | so over every run: exactly when some press on a pinned menu chose another item than the highlighted row and neither menu nor row has been drawn since |
| WindowManager.ForgottenOutline | ouroboros/oriscwm.c:6681-6772 | from the empty desktop, a run of a few events that ends with nothing held and a pixel of a forgotten outline on the workspace |
| WindowManager.GhostMenu | ouroboros/oriscwm.c:6560-7028 | from the empty desktop, a pinned menu dragged, dismissed by Escape and dropped: nothing is held and a pixel of the menu is left, for every look of the menu that differs from the workspace there |
| WindowTable.OpenedOk | ouroboros/oriscwm.c:3387-3570 | a new window keeps the table in order |
| WindowTable.ClosedOk | ouroboros/oriscwm.c:3929-3954 | closing one does |
| WindowTable.HandledOk | ouroboros/oriscwm.c:6560-6772 | every pointer event does |
| WindowTable.ServedOk | ouroboros/oriscwm.c:7250-7323 | every request, key and event does |
| WindowTable.TableHoldsForever | ouroboros/oriscwm.c:1574-1698 | over every run the stack lists each live window exactly once, focus is its top (0 if and only if it is empty), every live window lies on the screen, dead windows have no subscribers, and elevators stay on their track |
| Stacking.WithoutElsewhere | ouroboros/oriscwm.c:3576-3587 | taking a window off the stack changes the top window only where it was |
| Stacking.RaiseTop | ouroboros/oriscwm.c:5816-5841 | raising a window changes the top window only where it is |
| Stacking.MoveElsewhere | ouroboros/oriscwm.c:6730-6772 | moving a window changes the top window only at its old and new place |
| Coalesce.DrainExact | ouroboros/oriscwm.c:6854-6936 | for every queue, draining with collapsed motions gives the same positions, stack, focus, grabs, menu and messages as dispatching every event if and only if, between any two other events, at most one drag motion moves an elevator that a client listens to |
| Coalesce.DrainKeepsState | ouroboros/oriscwm.c:6854-6936 | for every queue, overlapping grabs included, the two differ in nothing but messages, and draining sends no more |
| Coalesce.CoalescingSound | ouroboros/oriscwm.c:6854-6936 | in particular for any queue in which no left press arrives while something is held |
| Coalesce.OverlappingGrabsDiffer | ouroboros/oriscwm.c:6854-6936 | a concrete queue with overlapping grabs for which it does not |
| Coalesce.SingleKept | ouroboros/oriscwm.c:6560-6772 | one press at a time keeps at most one thing held |
| Coalesce.DispatchedTogether | ouroboros/oriscwm.c:6854-6905 | what an event does and sends does not depend on what was sent before, so a lost message is never made up for |
| ScrollMap.MapsExactAtEnds | ouroboros/oriscwm.c:6008-6142 | both scrollbar maps are exact at both ends |
| ScrollMap.ElevMonotone | ouroboros/oriscwm.c:6117-6142 | offset to elevator is monotone and stays on the track |
| ScrollMap.OffsetMonotone | ouroboros/oriscwm.c:6009-6020 | elevator to offset is monotone and stays in range |
| ScrollMap.OffsetRoundTrip | ouroboros/oriscwm.c:6008-6142 | offset to elevator to offset gives o' with o' <= o and (o - o') * S < M + S |
| ScrollMap.ElevRoundTrip | ouroboros/oriscwm.c:6008-6142 | elevator to offset to elevator loses at most one pixel when M >= S |
| RoundRobin.PickIsNearest | ouroboros/supervisor.c:768-799 | the pick is the eligible CPU nearest after the counter, self when there is none |
| RoundRobin.FairRound | ouroboros/supervisor.c:768-799 | from any counter, as many picks as there are eligible CPUs pick each exactly once; with none eligible every pick is self |
| Fairness.FairlySent | ouroboros/supervisor.c:768-1580 | over any requests to the handler during which the directory names the same computing CPUs: as many that are for any CPU and not kept here as there are of those CPUs are sent to each exactly once, whatever is asked in between |
| Fairness.NobodyElse | ouroboros/supervisor.c:768-1580 | with no computing CPU all of them are served here |
| Fairness.AimedOrKept | ouroboros/supervisor.c:1505-1580 | every other request goes to the CPU it names, or is kept |
| Supervisor.Supervisor.PickNextCpu | ouroboros/supervisor.c:768-799 | the loop over the directory computes that pick |
| Supervisor.Supervisor.ReapExitedTasks | ouroboros/supervisor.c:1087-1100 | frees exactly the exited slots, tags included |
| Supervisor.Supervisor.CullTasksForTerminal | ouroboros/supervisor.c:1110-1123 | kills by tag, reaps if any was killed, and returns how many were |
| Supervisor.Supervisor.KillAllTasks | ouroboros/supervisor.c:2151-2157 | a halting supervisor marks every program of its own as exited, as the halting step of the protocol does |
| Supervisor.CullIsExact | ouroboros/supervisor.c:1110-1123 | culling ends exactly the programs of that terminal and leaves all running others alone |
| Supervisor.RelayIsPinned | ouroboros/supervisor.c:1505-1580 | a relay is marked for no further relay and carries hint and length unchanged; a request for any CPU goes only to a live CPU without a window manager; a pinned request is never relayed |
| Supervisor.Supervisor.HandleSpawnRequest | ouroboros/supervisor.c:1505-1663 | the handler does exactly what the local model says, and the terminal overrides are clear again afterwards |
| SpawnProtocol.InvStep | ouroboros/supervisor.c:2111-2200 | every step of every supervisor, in any interleaving, keeps the protocol's invariant |
| SpawnProtocol.ConservedStep | ouroboros/supervisor.c:542-602 | a request is in exactly one mailbox, in exactly one hand, or answered once; relayed at most once; and starts at most one program |
| SpawnProtocol.GoodStep | ouroboros/supervisor.c:542-602 | a packet in flight is the request as issued, client and hint included, and after a relay is pinned to the right CPU |
| SpawnProtocol.LoggedStep | ouroboros/supervisor.c:1505-1663 | every answer goes to the client that asked, every program runs where it was asked for with its request's hint, and status 0 is reported exactly for started programs |
| SpawnProtocol.SealedStep | ouroboros/supervisor.c:632-659 | behind a closing terminal's cull nothing that it relayed is waiting |
| SpawnProtocol.AnsweredOrAbandoned | ouroboros/supervisor.c:2111-2200 | in every run, once the running supervisors are idle, each request was answered exactly once or lies in the mailbox of a halted CPU |
| SpawnProtocol.AtMostOnce | ouroboros/supervisor.c:542-602 | in every run a request is relayed, started and answered at most once |
| SpawnProtocol.NoOrphans | ouroboros/supervisor.c:2123-2172 | in every run, once a CPU has served a closing terminal's cull, none of the programs that the terminal relayed there is left or will come |
| Strays.CullClears | ouroboros/supervisor.c:1105-1123 | serving a cull leaves none of the terminal's programs on that CPU, whoever asked for them |
| Strays.ClearIff | ouroboros/supervisor.c:2111-2172 | from then on that CPU stays without them, in every continuation, if and only if it starts no program with the terminal's hint |
| Strays.NoneLeft | ouroboros/supervisor.c:2111-2172 | in every run in which programs with the hint ask only the terminal's own supervisor, no program with the hint at all is left on a CPU that has served the cull |
| Strays.StrayRun | ouroboros/supervisor.c:2111-2172 | a run in which one is: a request waiting in that CPU's own mailbox behind the cull |
| Strays.EveryoneTold | ouroboros/supervisor.c:632-659 | in every run, a terminal that halted having found all supervisors has its cull waiting, in hand or served at every other CPU |
| Strays.NoneOutlivesHalt | ouroboros/supervisor.c:2123-2172 | in every run no program is running on a CPU that halted |
| Wrap.LinesHoldTheWords | ouroboros/programs/mdview.c:165-191 | every word is on exactly one line, in order; every line fits unless it is a single word |
| Wrap.GreedyIsOptimal | ouroboros/programs/mdview.c:165-191 | no way of breaking the words into fitting lines has fewer lines |
| Layout.WrappedSlices | ouroboros/programs/mdview.c:165-191 | the items emitted for any span are slices of it, one per line and a line height apart, none empty, in source order without overlap, and no character but spaces is left out |
| Layout.WrappedWidths | ouroboros/programs/mdview.c:165-191 | each emitted slice is at least as wide as the running width of its line, which fits unless the line is one word, and exactly as wide if and only if the slice has no two spaces in a row |
| Viewer.Viewer.TextWidth | ouroboros/programs/mdview.c:128-143 | the sum of the advances, whatever the cache holds already |
| Viewer.Viewer.Emit | ouroboros/programs/mdview.c:104-114 | appends one item, or drops it when the list is full |
| Viewer.Viewer.WrapEmit | ouroboros/programs/mdview.c:165-191 | emits exactly the slices of the greedy lines and returns the y below them |
| Viewer.Viewer.LayoutUpto | ouroboros/programs/mdview.c:216-256 | lays out line after line, in place, exactly as far as the target asks |
| Fences.InCodeIsOdd | ouroboros/programs/mdview.c:216-256 | however far a document is laid out, it is in code exactly when an odd number of its lines so far begins with three backticks |
| Fences.LineInDocument | ouroboros/programs/mdview.c:216-256 | in the finished document each source line has added nothing if it is a fence, one code item of its whole span after an odd number of fences, and otherwise the wrapped text, rule or disc of its kind, between the items of the lines before and after |
| Viewer.Viewer.LayoutReset | ouroboros/programs/mdview.c:201-209 | every field of the layout state is the starting value again, the document untouched; a document not cut yet is at the start |
| Layout.Resume | ouroboros/programs/mdview.c:216-256 | going on from a lower target is as good as going for the higher one at once |
| Layout.OnlyTheLastCounts | ouroboros/programs/mdview.c:216-256 | increasing targets give what the last alone gives |
| Layout.ViewportFirstIsFull | ouroboros/programs/mdview.c:216-256 | any targets that reach the end give the same items, height and code-fence state as one full layout |
| Layout.ItemsFall | ouroboros/programs/mdview.c:216-256 | item y values never decrease, and nothing still to come lies above the current y |
| Layout.FirstScreenIsFinal | ouroboros/programs/mdview.c:350-365 | the first screen painted early is the first screen of the finished document |
| Viewer.Viewer.Render | ouroboros/programs/mdview.c:260-295 | draws exactly the items that are partly inside the viewport |
| Layout.DrawnInTurn | ouroboros/programs/mdview.c:260-295 | an item is drawn exactly when one of its rows is inside the viewport, in its turn |
| Viewer.Viewer.Open | ouroboros/programs/mdview.c:350-362 | opening a document: the early paint is final, and the list is the full layout |
| Viewer.ScrollKey | ouroboros/programs/mdview.c:299-312 | every key but quit gives an offset the document can be scrolled to: arrows move by a line and page keys by a screenful less a line, unless an end is nearer |
| Editor.Editor.InsertChar | ouroboros/programs/edit.c:116-128 | inserts at the cursor of a line with room, in place; otherwise nothing |
| Editor.Editor.Backspace | ouroboros/programs/edit.c:131-170 | removes the character before the cursor, or joins two lines and closes the gap; what does not fit is lost |
| Editor.Editor.Newline | ouroboros/programs/edit.c:173-201 | opens a gap and cuts the line at the cursor, unless the buffer is full |
| Editor.Editor.ScrollIntoView | ouroboros/programs/edit.c:212-218 | the cursor is inside the viewport |
| Editor.Editor.HandleKey | ouroboros/programs/edit.c:388-426 | each key does to the arrays what it does to the list of lines |
| Editor.Editor.Run | ouroboros/programs/edit.c:388-426 | so does every run of keys |
| EditorModel.KeyKeepsOk | ouroboros/programs/edit.c:388-426 | every key keeps at least one line, at most the limit, no line too long, and the cursor inside its line and the viewport |
| EditorModel.CleanIsUnchanged | ouroboros/programs/edit.c:115-201 | while the changed mark is off no key has changed the text |
| EditorModel.ReturnBackspace | ouroboros/programs/edit.c:131-201 | Return then Backspace restores text and cursor whenever Return took effect |
| EditorModel.InsertBackspace | ouroboros/programs/edit.c:116-145 | a character then Backspace restores text and cursor whenever it was inserted |
| FlatText.TypeFlat | ouroboros/programs/edit.c:116-128 | in the saved bytes, typing puts the character in at the cursor's offset and moves the offset past it |
| FlatText.ReturnFlat | ouroboros/programs/edit.c:173-201 | Return puts a newline in there |
| FlatText.BackspaceFlat | ouroboros/programs/edit.c:131-170 | Backspace takes out the byte before the offset, newlines too, unless the joined line does not fit |
| FlatText.ArrowsFlat | ouroboros/programs/edit.c:388-426 | Left and Right move the offset by one byte within the text, Up and Down the row by one at the same column or the end of a shorter line; none changes the text |
| EditorModel.JoinLosesIff | ouroboros/programs/edit.c:131-170 | joining two lines keeps a prefix of the two, and all of them if and only if they fit one line |
| Editor.Editor.SaveFile | ouroboros/programs/edit.c:221-244 | writes every line followed by a newline; when opening or any write fails, what was written is a prefix and the changed mark stays |
| Editor.Editor.Load | ouroboros/programs/edit.c:247-293 | the loaded text depends only on the bytes, not on how they are cut into chunks; the truncation mark is right |
| EditorModel.SaveLoad | ouroboros/programs/edit.c:220-293 | loading what was saved gives the same lines if and only if there are fewer than the limit (100); a full buffer loses exactly its last line |
| EditorModel.ChunksDoNotMatter | ouroboros/programs/edit.c:247-293 | reading chunk by chunk is reading all bytes |
| EditorModel.LoadedOk | ouroboros/programs/edit.c:247-293 | any file loads to a text in order |
| FlatText.LoadCuts | ouroboros/programs/edit.c:247-293 | a file of fewer lines than the buffer holds loads line by line, each cut to the width |
| EditorModel.SessionSurvives | ouroboros/programs/edit.c:220-293 | after any run of keys, saving and loading gives the text back unless the buffer is full |
| Shell.ResolvePath | ouroboros/shell.c:225-291 | for every input, cut ones included, the buffer holds the normal form of the joined path cut to the buffer |
| Shell.ResolvedIsNormal | ouroboros/shell.c:225-291 | from an absolute working directory the result is always absolute, without empty, "." or ".." components and without trailing slash; if the joined path fits it is its normal form |
| Shell.ResolvedTwice | ouroboros/shell.c:225-291 | resolving a result again changes nothing |
| PathSpec.NormalIsNormal | ouroboros/shell.c:246-286 | the normal form is normal and its own normal form |
| PathSpec.NormalIsFixed | ouroboros/shell.c:246-286 | every normal path is its own normal form |
| PathSpec.RelativeStartsAtCwd | ouroboros/shell.c:236-244 | a relative argument is folded onto the stack of the working directory's components |
| PathSpec.DownAndUp | ouroboros/shell.c:246-286 | from any directory the name of an entry leads to its path, ".." from there leads back, so do both in one argument, and ".." at the root stays there |
| Shell.Shell.Cd | ouroboros/shell.c:531-556 | the working directory moves to the resolved path if that can be entered and stays a normal path |
| Shell.Shell.Run | ouroboros/shell.c:531-556 | so over every run of cd commands |
| Bake.BakeGlyph | tools/bdf.py:90-155 | a cell pixel is set if and only if source ink lies there; the clip report is right in both directions |
| Bake.BakeRange | tools/bdf.py:90-155 | every codepoint's cell and clamped advance; missing glyphs are blank; the clipped list is exact |
| Bake.FittedNeverClips | tools/bdf.py:107-123 | a cell fitted to the selected glyphs clips none of them |
| Font.FaceBlob | tools/gen_wm_font.py:164-206 | the loops build exactly the laid-out object |
| Font.HeaderRoundTrip | ouroboros/oriscwm.c:1434-1472 | parsing the encoded header recovers cell size, first codepoint, count and flags |
| Font.AdvanceIs | ouroboros/oriscwm.c:744-751 | glyph gi advances by its encoded width for gi below 240, and by whatever follows the 256-byte cache from there on |
| Font.AdvancesRightIff | ouroboros/oriscwm.c:744-751 | all advances are right, whatever follows the cache, if and only if there are at most 240 glyphs |
| Font.PixelRoundTrip | tools/gen_wm_font.py:185-201 | every pixel of every cell can be read back at its laid-out byte and bit |
| Bake.InkRoundTrip | tools/bdf.py:130-150 | every source ink pixel of a baked glyph can be read back from the bytes of the object |
| Bake.MakeFace | tools/gen_wm_font.py:164-206 | from glyphs to object in one go |

## Left out

- Windows' tables are sequence-valued fields updated by index, not arrays; they are never aliased in the source either. The z-stack, screens, surfaces, editor lines, display list and path buffers are arrays.
- A window's surface is one object per slot, kept when the slot is reused; allocating and freeing it, and the service mailboxes, is the flag of `HandleNewWindow`. Each surface has its own scratch row where the code has one for all; every user fills the row first.
- Geometry is restricted to `Geo.Ok()`: screens up to 65535 pixels, so that packing two coordinates into one word loses nothing, and at least one cell, four rows and one slot.
- Glyph shapes, colours, bevels and the menu's look are arbitrary pictures (`ink`, `plate`, `glyph`) that depend on the state shown: title and focus, elevator and what is held, menu state. The menu's state also records which rows were drawn highlighted last (`lit`), which no decision depends on; pictures of menus in the same place are taken to differ only in such rows and at the pin (`Pictured`).
- Text requests paint any ink inside the rectangle they mark; proportional measuring is not modelled there.
- `forward_raster_write` and `forward_grid_write`: not part of this model.
- Auto-repeat timing of a held scrollbar arrow: a repeat may come at any time.
- Window `WM_OP` replies, subscriptions' reply values and capability handling: registers and transport.
- Supervisor: names for the task listing (op 5), the directory request (op 4), the WM console binding and boot are not modelled; the listing and directory requests are the packet `Other`.
- SpawnProtocol: mailboxes do not overflow, the transport neither loses nor duplicates, and the two fetches of one request may give different answers only through `localOk`.
- Editor.Editor.SaveFile: a write that fails stores nothing; how much of one write reaches the file is the file system's.
- Editor: rendering and the status line; the choice of the file name from the arguments.
- Viewer: drawing of glyphs, the draw buffer's 255-byte cut of one line, loading the file, and the input loop around `ScrollKey`.
- Shell: all other commands, the history ring, and NUL bytes inside an argument (`NoNul`): the arguments are C strings. Two guards of `resolve_path` for an empty buffer are never taken and have no counterpart.
- Font: the BDF parser, the C initialiser emitter and the firmware that blits glyphs; a face must fit its header fields (`Face.Ok`), where the encoder itself would mix a cell height of 65536 or more into the width.
- Layout.FirstScreenIsFinal: for scroll offset 0 only, where the early paint happens.
