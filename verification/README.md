# The W window manager, verified

The project models the window manager of the W window system: `server/window.c` and the
rectangle arithmetic of `server/rect.c` on which it rests, with the parts of
`server/client_ret.c` and `server/client_noret.c` that call it.  It proves, for every tree of
windows and every sequence of requests,

* that the rectangle lists which the server maintains incrementally always partition the
  screen, and stand for the same pixels as a fresh computation;
* that the backing store (bitmap, `is_dirty`, `dirty`) never loses a pixel, except at two
  places in the code, whose exact conditions are stated and proved in both directions, with a
  run of six requests that reaches one of them;
* that the stackless traversals terminate and visit what they should, also when the visitor
  frees the window it is given, or a whole subtree.

A WINDOW is the identity `Window`.  Its fields live in maps of the class `Server.Server`
(`links`, `place`, `shown`, `store`), which the methods update as the C code writes through
pointers; a freed window is one that the maps no longer contain.  The methods carry the loops
of the C code.  Each is proved against a function on the immutable `State` (`DoOpen`,
`DoClose`, `DoMove`, `DoStack`, `DoDelete`, ... in `Runs.dfy`), and the theorems are about these
functions; `Effects.dfy` says what they do without them.  `content` is a ghost field: what the clients have drawn into each window.

| file | contents |
|---|---|
| `Geometry.dfy` | rectangles as pixel sets: subtraction, clipping, lists of them |
| `WindowTree.dfy`, `Linking.dfy` | the link fields, the shape of the tree, unlinking and linking |
| `Orders.dfy`, `Visitors.dfy` | preorder and postorder, where the stackless loops stand, the visitors |
| `Visibility.dfy`, `VisibleRects.dfy`, `Pixelless.dfy` | what is visible, searched from above and computed from below; windows without pixels |
| `Changes.dfy`, `Steps.dfy`, `Restacking.dfy` | why the incremental updates of the lists suffice |
| `Backing.dfy`, `Coherence.dfy`, `Phases.dfy` | the backing store, saved before and redrawn after a change |
| `Opening.dfy`, `Closing.dfy`, `Moving.dfy`, `Reordering.dfy`, `Lifecycle.dfy`, `Killing.dfy` | the operations |
| `Drawing.dfy`, `Finding.dfy` | drawing, copying, bringing the screen up to date, `window_find` |
| `Rooted.dfy`, `Results.dfy` | the invariant `Fine`, and what it says about the screen |
| `Runs.dfy`, `Effects.dfy` | runs of requests, and the effect of each request |
| `Borders.dfy`, `Witnesses.dfy` | when runs keep the backing store, and runs that do not |
| `Server.dfy` | the server itself |

`dafny verify dfyconfig.toml` checks the whole project.

## Model

| member | source | states |
|---|---|---|
| Server.Server.Serve | server/window.c:831-2115 | Any sequence of the modelled requests (nested windows and copies between windows included) is served as a run: each request has the effect that `Effect` states; the invariant holds after each, and the cache names a live window; if no request meets one of the spoiling conditions, the backing store of every window is coherent at the end, and after a final refresh each screen pixel is that of the window that owns it |
| Effects.EffectTheorem | server/window.c:975-2115 | What each request does, in sibling lists, coordinates, pixels and the cache: the new window on top of its siblings with the margins of its border and title; the opened or moved window at its place with the open windows below it; only the closed window closed; the raised window with none to its left, the lowered with none to its right, the order of the others kept; exactly the subtree deleted; the painted pixels in coordinates of the working area; the copied pixels; the cached window; nothing left to redraw. Requests that are refused change nothing |
| Effects.RunEffects | server/window.c:975-2115 | This holds for every request of a run |
| Effects.PlantedFirst | server/window.c:975-1011 | The new window has no sibling to its left and all former children to its right; no other list of children changes |
| Effects.OpenPuts | server/window.c:1048-1126 | The window is open with its corner at the given point, the open windows below it have moved by the same offset, no other place changes |
| Effects.MovePuts | server/window.c:1322-1472 | The same for window_move; nothing changes for a closed window or the place it has already |
| Effects.CloseUnmaps | server/window.c:1180-1236 | is_open is reset for this window alone, and only if it and all windows above it are open |
| Effects.StackRestacks | server/window.c:1596-1733 | The window lies just above or just below the other one, the siblings without it are in the same order, no other list of children and no place changes |
| Effects.EndsRestack | server/window.c:1740-1762 | After window_to_top no sibling is to the left, after window_to_bottom none to the right |
| Effects.DeleteDeletes | server/window.c:1244-1315 | Exactly the windows that do not lie below the deleted one remain, with their place, content and order |
| Effects.PlotDraws | server/client_noret.c:46-142 | Exactly the pixel at the given offset in the working area is painted, if it lies in it; for the root on the screen |
| Effects.BoxDraws | server/client_noret.c:287-352 | Exactly the pixels of the box, whose width and height may be negative, within the working area |
| Effects.CopyTransfers | server/client_noret.c:355-479 | Pixel (x1 + i, y1 + j) of the target's working area becomes pixel (x0 + i, y0 + j) of the source's, where the root stands for the screen and other windows for their content |
| Effects.FindSeeks | server/window.c:1798-1861 | On a hit the first rectangle with the point is at the front and nothing else changes; otherwise the cache names the window that owns the pixel, or none if no window does |
| Effects.RefreshRefreshes | server/window.c:2079-2115 | No window has a dirty part left, and coherent windows show their content in all their rectangles |
| Runs.StepTheorem | server/window.c:975-1861 | One request of any kind keeps the invariant and a cache that names a live window, and keeps all windows coherent if and only if `Spoils` does not hold of the world and the request before it is served |
| Runs.RunSafe | server/window.c:314-432 | In every world that a run passes through the invariant holds, whatever the requests, and the cache is not dangling |
| Runs.RunCoherent | server/window.c:657-768 | A run without spoiling requests keeps the backing store of all windows coherent |
| Runs.RunSpoiled | server/window.c:1180-1472 | The first spoiling request of a run does leave some window incoherent |
| Runs.RunUpToDate | server/window.c:2079-2115 | A final refresh after an unspoiled run brings the whole screen up to date |
| Borders.FlatRun | server/client_ret.c:201-227 | A condition on what the clients ask for: as long as children are created only in windows without a border and nobody draws into the root, no request of the run spoils anything |
| Borders.StaleOnBorder | server/window.c:1180-1236 | A pixel that closing or moving would restore wrongly lies on the parent's border |
| Borders.CleanSafe | server/window.c:1180-1236 | If the parent is not dirty, or does not meet the window, its border is not stale, neither for closing nor for moving |
| Borders.BorderlessSafe | server/window.c:1180-1472 | If the parent has no border, closing and moving are safe |
| Borders.DrawnSpoils | server/window.c:1180-1472 | For every window that meets an unhidden parent's area in some pixel: one drawing into the parent at that pixel, with a colour its bitmap lacks, makes the next close of the window spoil, and the next move that leaves the parent |
| Witnesses.FramedRunSpoils | server/window.c:1180-1236 | From the initial state: create and open a bordered window, create and open a borderless child at (-4, -4) of its working area, draw the frame, close the child; every window is coherent until the last request, and not after it |
| Witnesses.StaleBorderStays | server/window.c:1367-1472 | A coherent state in which window_close, and window_move by (50, 50), leave the parent incoherent |
| Witnesses.RootPlotSpoils | server/client_noret.c:46-142 | Right after the start, one plot into the window with handle 1 leaves the background incoherent |
| Results.ScreenPartition | server/window.c:314-401 | In every state with the invariant, which includes positive sizes, the lists of all windows are disjoint and cover exactly the screen; windows below a closed one have none; an open window is unhidden exactly when its list covers all of it |
| Results.SameAsFresh | server/window.c:409-432 | In every state with the invariant the maintained list of an open window stands for the pixels that window_build_recs would compute now, and `is_hidden` is the same |
| VisibleRects.BuildMeaning | server/window.c:321-387 | When all windows have pixels, the list that window_build_recs computes is disjoint, non-empty rectangles, and stands for exactly the visible pixels; the flag is set iff some pixel of the window is not visible |
| VisibleRects.BuildPixels | server/window.c:321-387 | Windows without pixels included, the list is disjoint and stands for exactly the visible pixels |
| VisibleRects.BuildFlag | server/window.c:321-387 | Windows without pixels included, the flag of a window with pixels is set if and only if some pixel of it is not visible, or an open window without pixels, on top of it or of one of its ancestors, lies inside its extent |
| Pixelless.SliverHides | server/window.c:356-364 | An instance: a window of 10 by 10 counts as hidden below an open one of 0 by 10, though all its pixels are visible |
| Pixelless.SliverRebuildsNothing | server/window.c:409-432 | For a rectangle without pixels window_rebuild_recs rebuilds no list, in whatever order the windows are visited |
| Pixelless.SliverDiffers | server/window.c:1084-1112 | So after opening the window of 0 by 10 the flag of the lower window is not the one a fresh computation gives |
| Visibility.VisiblePartition | server/window.c:314-387 | Every pixel of the screen is visible in exactly one window, other pixels in none |
| Visibility.VisibleIffFound | server/window.c:1827-1859 | The search from the root finds a window at a pixel exactly when the pixel is visible in it: top-down search and bottom-up subtraction agree |
| Server.Server.WindowFind | server/window.c:1798-1861 | With or without the cache the result is the window that owns the pixel, null if none does; on a hit the rectangle goes to the front of the cached window's list, else the found window is cached; no list stands for other pixels than before, and without the cache nothing changes |
| Finding.CacheHit | server/window.c:1803-1825 | If a rectangle of the cached window holds the point, the search would find this window |
| Finding.ReorderedOK | server/window.c:1815-1825 | Moving a rectangle to the front keeps the invariant, the coherence and all pixel sets |
| Geometry.PiecesMeaning | server/rect.c:123-455 | The rectangles that rect_subtract adds hold exactly the pixels of A that are not in B |
| Geometry.PiecesShape | server/rect.c:123-455 | They are at most four, disjoint and inside A, for all sizes that are not negative; if A and B have pixels, so have all of them, and `cut` is set iff A and B overlap |
| Geometry.CutIsExact | server/rect.c:123-455 | For A with pixels, `cut` tells whether a pixel of A was removed, if and only if B has pixels or lies outside A's open extent |
| Geometry.ClipMeaning | server/rect.c:490-514 | rect_clip adds the common rectangle, if any, and sets `cut` iff a pixel of A is lost |
| Geometry.AllMeaning | server/rect.c:463-541 | Over a list both operations compute the set difference or the intersection and keep the list disjoint; if all rectangles have pixels, so has the result, and `cut` is set iff a pixel is lost |
| Geometry.ListSubtract | server/rect.c:463-484 | The loop computes the list of AllMeaning, for subtraction |
| Geometry.ListClip | server/rect.c:520-541 | The loop computes the list of AllMeaning, for clipping |
| Server.Server.TraversePre | server/window.c:156-199 | The stackless loop terminates and applies the visitor along the preorder, leaving out the subtrees below windows for which it returns 1 |
| Server.Server.TraversePost | server/window.c:217-260 | The same for the postorder |
| Server.Server.TraverseListPre | server/window.c:269-281 | The same from a window to its right |
| Orders.NextPreTodo | server/window.c:162-196 | One round of the loop takes the first window off what is still to be visited, or climbs |
| Orders.PreMembers | server/window.c:156-199 | The unpruned preorder visits exactly the windows of the subtree |
| Orders.PrunedMembers | server/window.c:156-199 | The pruned preorder visits exactly the windows of the subtree with nothing cut above them |
| Orders.PreOrdered | server/window.c:156-199 | Of two windows the one above the other is visited first, else the one in the subtree further left |
| Orders.PostMembers | server/window.c:217-260 | So does the postorder |
| Orders.PostOrdered | server/window.c:217-260 | Of two windows the one below the other is visited first, else the one in the subtree further left |
| Orders.PostDistinct | server/window.c:217-260 | ... each of them once |
| Linking.RemovedLinks | server/window.c:78-88 | The pointer updates of wtree_remove give the links of the tree without the window, the order of the others kept |
| Linking.AddedLinks | server/window.c:96-134 | The pointer updates of the two insertions give the links of the tree with the window at its place |
| Server.Server.TreeRemove | server/window.c:78-88 | wtree_remove keeps the links well formed and the order of the other siblings |
| Server.Server.TreeAddBefore | server/window.c:119-134 | wtree_add_before puts the window exactly before the given sibling |
| Server.Server.TreeAddAfter | server/window.c:96-111 | wtree_add_after puts it exactly after |
| Server.Server.BuildRecs | server/window.c:314-401 | The loops compute the list and the flag of BuildMeaning |
| Server.Server.IsHidden | server/window.c:799-824 | False iff all windows above are open and every pixel of the window comes through, its children not counted |
| Steps.HiddenMeaning | server/window.c:799-824 | For an open window the test fails iff all windows above are open and every pixel of it comes through |
| Backing.SaveMeaning | server/window.c:657-686 | Afterwards the bitmap is whole, or the window is still dirty and does not meet the rectangle |
| Backing.RedrawMeaning | server/window.c:731-768 | Exactly the pixels in the window's list and the given rectangles, or waiting to be redrawn, are copied from the bitmap |
| Coherence.RedrawRestores | server/window.c:731-768 | After the redrawing traversal a window is coherent if and only if no pixel was copied that its bitmap lacked |
| Steps.OpenRestores | server/window.c:1093-1112 | Rebuilding the window, its right siblings and the parent, skipping what lies apart, is enough for all lists to be right after opening |
| Steps.CloseRestores | server/window.c:1190-1236 | The same for the right siblings and the parent after closing |
| Steps.MoveRestores | server/window.c:1405-1444 | The same after moving |
| Steps.FreeMoveRestores | server/window.c:1346-1444 | The shortcut that only shifts the lists of the moved subtree is right whenever the code takes it |
| Restacking.RestackRestores | server/window.c:1676-1714 | Only the window and the siblings it has passed need new lists after restacking |
| Opening.OpenTheorem | server/window.c:1048-1126 | window_open keeps the invariant and the coherence of all windows; only the window and the open windows below it move |
| Closing.CloseTheorem | server/window.c:1133-1236 | window_close keeps the invariant; it keeps all windows coherent if and only if the parent's border is not stale, and the parent is the only window it can harm |
| Moving.MoveTheorem | server/window.c:1322-1472 | window_move keeps the invariant; it keeps all windows coherent if and only if the border is not stale or the window still meets its parent at the new place |
| Reordering.RestackTheorem | server/window.c:1596-1733 | window_restack of an open window keeps the invariant and the coherence |
| Reordering.PassageIs | server/window.c:1596-1648 | The window ends up just above or just below the other one, the order of the others kept; it has moved up iff the other one was to its left |
| Lifecycle.CreateKeeps | server/window.c:975-1011 | A new closed window, under any parent, leaves every list and all coherence as they were |
| Lifecycle.NewPlace | server/client_ret.c:40-134 | The working area has the requested size and lies inside the window; a border takes 4 pixels on each side, with a border the title a bar of its height and 4 pixels; without a border the window is its working area |
| Lifecycle.DeleteTheorem | server/window.c:1244-1315 | window_delete removes exactly the subtree, keeps the invariant, and keeps the remaining windows coherent if and only if the close that comes first does |
| Server.Server.constructor | server/window.c:831-968 | The base case of every run: the root hidden, the background as large as the screen with its pixels, the invariant, coherence, no bordered parent, an empty cache |
| Server.Server.WindowOpen | server/window.c:1048-1126 | The loops compute `DoOpen` and return 0 also for an open window; coherence is kept |
| Server.Server.WindowClose | server/window.c:1180-1236 | The loops compute `DoClose`; nothing happens below a closed ancestor; coherence is kept iff the border is not stale |
| Server.Server.WindowMove | server/window.c:1367-1472 | The loops compute `DoMove` with the shortcut taken exactly when `FreeMove` holds; -1 for a closed window; coherence is kept iff the move does not meet a stale border |
| Server.Server.WindowRestack | server/window.c:1596-1733 | -1 iff the windows are not two different siblings, else the window lies next to the other one, the order of the others kept; coherence is kept |
| Server.Server.WindowToTop | server/window.c:1740-1749 | The window is the first of its siblings, the order of the others kept |
| Server.Server.WindowToBottom | server/window.c:1751-1762 | The window is the last of its siblings, the order of the others kept |
| Server.Server.WindowCreate | server/window.c:975-1011 | A fresh window, closed, with its margins, on top of the former children of the given parent; no other window changes |
| Server.Server.TraverseDelete | server/window.c:217-260 | The deleting postorder frees exactly the subtree, never looks at a freed window, and forgets a freed window in the cache |
| Server.Server.WindowDelete | server/window.c:1301-1315 | `DoDelete`; coherence is kept iff the close that comes first keeps it |
| Server.Server.WindowKillClient | server/window.c:1905-1924 | The traversal whose visitor deletes whole subtrees terminates, never looks at a freed window, is a run of delete requests for windows of the client, leaves exactly the windows that neither belong to the client nor lie below one that does, and keeps them coherent as KillRunCoherent says |
| Killing.KillEnd | server/window.c:1905-1924 | When the traversal has come to its end, a window is left iff no window of the client was above it |
| Killing.ThinnedOn | server/window.c:1905-1924 | On the way each deletion leaves the other windows where they were, with their content |
| Killing.KillRunCoherent | server/window.c:1905-1924 | Killing a client keeps the remaining windows coherent if none of the closes on the way meets a stale border, and always when no bordered window has children |
| Drawing.DrawTheorem | server/client_noret.c:92-141 | The branch between screen and bitmap keeps all windows coherent and draws into the content of this one only |
| Drawing.SourceIsContent | server/client_noret.c:355-479 | Where a copy reads, on the screen or in the bitmap, it finds the content of the window |
| Drawing.CopyTheorem | server/client_noret.c:355-479 | A copy, in any of the four cases of screen and bitmap, moves pixels of the content of one window to that of the other, clipped to both working areas, and keeps all windows coherent |
| Drawing.RootDrawTheorem | server/client_noret.c:92-141 | Drawing into the root keeps the windows coherent if and only if it changes no pixel that a window shows and is not about to redraw |
| Drawing.DefacesOnScreen | server/client_noret.c:92-141 | When nothing waits to be redrawn, that means: iff no screen pixel changes |
| Drawing.DirtyMeaning | server/rect.c:590-611 | rectUpdateDirty gives the smallest rectangle around the old one and the new part, or around the new part alone when nothing was dirty |
| Drawing.RedrawAllTheorem | server/window.c:2079-2115 | Redrawing the dirty parts of coherent windows brings the whole screen up to date |
| Server.Server.ClientPlot | server/client_noret.c:46-142 | The pixel (x0, y0) of the working area, if it exists, of the content, or of the screen for the root; no other pixel |
| Server.Server.ClientBox | server/client_noret.c:287-352 | Exactly the pixels of the box in the working area, also with negative width or height |
| Server.Server.ClientBitblk2 | server/client_noret.c:400-479 | For a coherent source, or the root as the source, the pixels of the source's working area appear in that of the target, as CopyTransfers says |
| Server.Server.DrawFrame | server/window.c:2028-2070 | The frame is drawn into the content; nothing happens to closed and borderless windows and the background |
| Server.Server.RedrawAllIfDirty | server/window.c:2110-2115 | Nothing is left to redraw; if the windows are coherent, each screen pixel is afterwards that of the window that owns it |

## Findings

* window_close and window_move redraw the area that becomes free from the bitmaps of the right
  siblings and the parent, but do not save the parent first (server/window.c:1190-1236,
  server/window.c:1405-1472), as window_open does for the area it covers
  (server/window.c:1084-1085).  If the parent is unhidden and dirty, and the window lies over its
  border, old border pixels appear on the screen.  `StaleBorder` and `StaleMove` are the exact conditions: CloseTheorem, MoveTheorem
  and DeleteTheorem prove both directions; FramedRunSpoils reaches such a state.
* The handle of the root, 1, is in the table (server/window.c:875), and the drawing requests do
  not refuse it.  The root always counts as hidden and its bitmap is that of the screen
  (server/window.c:868, server/window.c:882), so the pixels of other windows are overwritten
  behind their backs.
  `Defaces` is the exact condition (RootDrawTheorem); RootPlotSpoils is an instance.
* window_close of a window below a closed one returns 0 and leaves it open
  (server/window.c:1192-1198); so is_open alone does not say whether a window is shown.
* is_dirty is never set on a hidden or closed window: part of `Coherent`, kept by every request
  that does not spoil.  A comment wonders about this (server/window.c:660-668).
* rect_subtract sets `cut` also when B is empty but strictly inside the extent of A (CutIsExact).
  createBitmap checks no sizes (server/client_ret.c:40-134), and window_build_recs subtracts every
  open sibling on top (server/window.c:356-364).  So wherever a bitmap of no bytes can be
  allocated, an open window of width 0 makes window_build_recs set `is_hidden` of windows below it
  that are visible as a whole: BuildFlag states exactly when, SliverHides is an instance.  Opening
  such a window rebuilds no list, so that the maintained flag is not the one of a fresh computation
  (SliverDiffers).  The pixels of a freshly computed list are right all the same (BuildPixels).
* The save and redraw functions of the root are null pointers (server/window.c:869-871).  They
  are never called: the invariant keeps the root hidden, with an empty list.

## Left out

- Server.Server.WindowMove: coordinates are unbounded integers, because REC holds shorts and
  the code does not check for overflow; a position beyond 16 bits is not modelled.
- Server.Server.WindowCreate: sizes are positive, which the source does not check. For sizes of
  0 only window_build_recs is modelled (BuildPixels, BuildFlag, `Pixelless.dfy`), negative sizes
  not at all.
- Server.Server.Serve: ignores requests to create a window of a size that is not positive; the
  source serves them. Resizing, scrolling and container windows are not among the requests.
- Runs.RunSafe: speaks of the modelled requests, so it says nothing about runs with windows
  without pixels.
- Results.ScreenPartition: the clause about the flag needs positive sizes, see BuildFlag.
- Results.SameAsFresh: the clause about the flag needs positive sizes, see SliverDiffers.
- VisibleRects.BuildMeaning: needs positive sizes; BuildPixels and BuildFlag do not.
- Server.Server.TraversePre: the return value of a visitor is 0 or 1; a negative value, which
  stops the loop, stands for a failed allocation in all visitors of the modelled operations.
- Server.Server.TraversePost: the same.
- Server.Server.TraverseListPre: the same, and so no subtree fails.
- Server.Server.BuildRecs: allocation succeeds, so there are no backups to restore.
- Lifecycle.NewPlace: without the gadget areas and the alignment of the bitmap.
- Server.Server.WindowCreate: under the root at most one W_TOP window may exist, and only for
  local clients; the model allows any number.
- Server.Server.WindowCreate: a new bitmap has colour 0 everywhere.
- Server.Server.WindowClose: for the background window it is not defined; client_close,
  client_move and client_delete refuse handles 0 and 1, and the runs model this refusal.
- Server.Server.WindowKillClient: takes the set of the client's windows, instead of comparing
  the `cptr` fields; closing the client's connection is not part of this model.
- Server.Server.ClientPlot: the drawing primitives are any function of pixel and old colour,
  within their bounding rectangle; of the requests in client_noret.c only plot, box and the two
  copies have methods, since the others share their branch between screen and bitmap. All of them
  return at once for containers, which are not modelled.
- Server.Server.ClientBox: without the margin of the line width of an outlined box.
- Server.Server.DrawFrame: which pixels the frame consists of is left open.
- Server.Server.ClientBitblk2: an overlapping copy is one from the unchanged source, as the
  drivers achieve by the direction in which they copy.
- Allocation failures and the rollback of rectangle lists (window_set_recs,
  window_restore_recs): allocation always succeeds.
- Container windows, whose content the client redraws, window_resize, the mouse pointer, the
  choice of the active window, window counters, and the flags W_MOVE and W_RESIZE.
- Colour tables and the hash table of handles; a window stands for its handle.
- Scrolling (client_vscroll).
- The REC lists are sequences and the WINDOW structs are maps from identities to fields: memory
  layout, aliasing of list nodes and use of the free store are not captured, except that freed
  windows are never looked up.
- Everything outside the window manager: packets, fonts, terminals, applications and games.
