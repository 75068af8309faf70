/** Whole runs of the server: what each request does to the state, and what every sequence
    of requests keeps. */
module Runs {
  import opened Geometry
  import opened WindowTree
  import opened Orders
  import opened Visibility
  import opened VisibleRects
  import opened Steps
  import opened Linking
  import opened Visitors
  import opened Coherence
  import opened Opening
  import opened Closing
  import opened Moving
  import opened Reordering
  import opened Drawing
  import opened Finding
  import opened Rooted
  import opened Lifecycle

  /** The requests that reach the window manager.  A window stands for its handle; a request
      for an unknown handle is ignored. */
  datatype Request =
    | ToCreate(parent: Window, width: int, height: int, border: bool, title: bool, titleHeight: int)
    | ToOpen(w: Window, x: int, y: int)
    | ToClose(w: Window)
    | ToMove(w: Window, x: int, y: int)
    | ToTop(w: Window)
    | ToBottom(w: Window)
    | ToDelete(w: Window)
    | ToPlot(w: Window, x: int, y: int, paint: Paint)
    | ToBox(w: Window, x: int, y: int, width: int, height: int, paint: Paint)
    | ToDecorate(w: Window, r: Rect, paint: Paint)
    | ToCopy(v: Window, x0: int, y0: int, width: int, height: int, w: Window, x1: int, y1: int)
    | ToFind(x: int, y: int, useCache: bool)
    | ToRefresh
  {
    predicate Draws() { ToPlot? || ToBox? || ToCopy? || ToDecorate? }

    predicate Looks() { ToFind? || ToRefresh? }
  }

  // ----- What the operations do -----

  ghost function DoOpen(s: State, root: Window, maxDepth: nat, w: Window, x: int, y: int): State {
    if Usable(s, root, maxDepth, w) && !s.place[w].isOpen then OpenResult(s, root, maxDepth, w, x, y) else s
  }

  ghost function DoClose(s: State, root: Window, maxDepth: nat, w: Window): State {
    if Usable(s, root, maxDepth, w) && AllOpen(s.tree, s.place, w) then CloseResult(s, root, maxDepth, w) else s
  }

  /** The window is open and asked to go somewhere else. */
  ghost predicate Moves(s: State, root: Window, maxDepth: nat, w: Window, x: int, y: int) {
    Usable(s, root, maxDepth, w) && s.place[w].isOpen && !(x == s.place[w].pos.x0 && y == s.place[w].pos.y0)
  }

  ghost function DoMove(s: State, root: Window, maxDepth: nat, w: Window, x: int, y: int): State {
    if Moves(s, root, maxDepth, w, x, y) then
      var dx, dy := x - s.place[w].pos.x0, y - s.place[w].pos.y0;
      MoveResult(s, root, maxDepth, w, dx, dy, FreeMove(s.tree, s.place, MovedTo(s.tree, s.place, w, dx, dy), w))
    else s
  }

  /** window_restack for two different siblings */
  ghost function DoStack(s: State, root: Window, maxDepth: nat, w: Window, w2: Window, onTop: bool): State {
    if Siblings(s, root, maxDepth, w, w2) then
      var d := PassageOf(s.tree[s.tree[w].parent].kids, w, w2, onTop);
      var s1 := Restacked(s, w, d);
      if d.passed == [] then s
      else if s.place[w].isOpen && Level(s1.tree, maxDepth, w, d.Order()) then RestackResult(s1, maxDepth, w, d.Order(), d.up)
      else s1
    else s
  }

  ghost predicate Siblings(s: State, root: Window, maxDepth: nat, w: Window, w2: Window) {
    && Usable(s, root, maxDepth, w) && w2 in s.tree && w != w2 && s.tree[w].parent == s.tree[w2].parent
    && w in s.tree[s.tree[w].parent].kids && w2 in s.tree[s.tree[w].parent].kids
  }

  ghost function DoTop(s: State, root: Window, maxDepth: nat, w: Window): State {
    if Usable(s, root, maxDepth, w) && s.tree[s.tree[w].parent].kids != [] then
      DoStack(s, root, maxDepth, w, s.tree[s.tree[w].parent].kids[0], true)
    else s
  }

  ghost function DoBottom(s: State, root: Window, maxDepth: nat, w: Window): State {
    if Usable(s, root, maxDepth, w) && s.tree[s.tree[w].parent].kids != [] then
      var kids := s.tree[s.tree[w].parent].kids;
      DoStack(s, root, maxDepth, w, kids[|kids| - 1], false)
    else s
  }

  ghost function DoDelete(s: State, root: Window, maxDepth: nat, w: Window): State {
    if Usable(s, root, maxDepth, w) then
      CloseFrame(s, root, maxDepth, w);
      DeleteResult(s, root, maxDepth, w)
    else s
  }

  ghost function DoDraw(s: State, root: Window, w: Window, paint: Paint, r: Rect, clip: Rect): State {
    if !s.Domains() || w !in s.tree then s
    else if w == root then RootDrawn(s, w, paint, r, clip)
    else Drawn(s, w, paint, r, clip)
  }

  /** The box of a drawing request, relative to the window. */
  function BoxAt(area: Rect, x: int, y: int, width: int, height: int): Rect {
    Rect(area.x0 + Min(x, x + width), area.y0 + Min(y, y + height), Max(width, -width), Max(height, -height))
  }

  /** The whole window, in its own coordinates */
  function Whole(place: Place): Rect { Rect(0, 0, place.pos.w, place.pos.h) }

  /** What a copy from `v` to `w` reads and writes; both rectangles are clipped to the working areas. */
  ghost function CopyColours(s: State, root: Window, v: Window, x0: int, y0: int, w: Window, x1: int, y1: int): Paint {
    if !s.Domains() || v !in s.tree || w !in s.tree then (p: Pixel, c: Color) => c
    else
      var from, to := s.place[v].area, s.place[w].area;
      CopyPaint(Source(s, root, v), from, to.x0 + x1 - from.x0 - x0, to.y0 + y1 - from.y0 - y0)
  }

  ghost function CopyBox(s: State, w: Window, x1: int, y1: int, width: int, height: int): Rect {
    if w in s.place then Rect(s.place[w].area.x0 + x1, s.place[w].area.y0 + y1, width, height) else Rect(0, 0, 0, 0)
  }

  ghost function DoCopy(s: State, root: Window, v: Window, x0: int, y0: int, width: int, height: int, w: Window, x1: int, y1: int): State {
    if w in s.place then DoDraw(s, root, w, CopyColours(s, root, v, x0, y0, w, x1, y1), CopyBox(s, w, x1, y1, width, height), s.place[w].area) else s
  }

  ghost function DoRefresh(s: State, root: Window, maxDepth: nat): State {
    if Shape(s.tree, maxDepth) && root in s.tree then Fold(s, RedrawIfDirty, Pre(s.tree, maxDepth, {}, root)) else s
  }

  /** The windows that may be closed, moved and deleted: handles 0 and 1 are refused. */
  predicate Plain(root: Window, background: Window, w: Window) { w != root && w != background }

  // ----- The same, case by case -----

  lemma {:induction false} DoOpenIs(s: State, root: Window, maxDepth: nat, w: Window, x: int, y: int)
    ensures Usable(s, root, maxDepth, w) && !s.place[w].isOpen ==> DoOpen(s, root, maxDepth, w, x, y) == OpenResult(s, root, maxDepth, w, x, y)
    ensures w in s.place && s.place[w].isOpen ==> DoOpen(s, root, maxDepth, w, x, y) == s
  {
    hide OpenResult;
  }

  lemma {:induction false} DoCloseIs(s: State, root: Window, maxDepth: nat, w: Window)
    ensures Usable(s, root, maxDepth, w) && AllOpen(s.tree, s.place, w) ==> DoClose(s, root, maxDepth, w) == CloseResult(s, root, maxDepth, w)
    ensures w == root || !AllOpen(s.tree, s.place, w) ==> DoClose(s, root, maxDepth, w) == s
  {
    hide CloseResult, AllOpen;
  }

  lemma {:induction false} DoMoveIs(s: State, root: Window, maxDepth: nat, w: Window, x: int, y: int)
    requires w in s.place
    ensures var dx, dy := x - s.place[w].pos.x0, y - s.place[w].pos.y0;
            var free := FreeMove(s.tree, s.place, MovedTo(s.tree, s.place, w, dx, dy), w);
            && (Usable(s, root, maxDepth, w) && s.place[w].isOpen && !(x == s.place[w].pos.x0 && y == s.place[w].pos.y0) ==>
                  DoMove(s, root, maxDepth, w, x, y) == MoveResult(s, root, maxDepth, w, dx, dy, free))
            && (w == root || !s.place[w].isOpen || (x == s.place[w].pos.x0 && y == s.place[w].pos.y0) ==> DoMove(s, root, maxDepth, w, x, y) == s)
  {
    hide MoveResult, FreeMove, MovedTo;
  }

  lemma {:induction false} DoStackIs(s: State, root: Window, maxDepth: nat, w: Window, w2: Window, onTop: bool)
    requires Usable(s, root, maxDepth, w) && w2 in s.tree && w != w2 && s.tree[w].parent == s.tree[w2].parent
    requires w in s.tree[s.tree[w].parent].kids && w2 in s.tree[s.tree[w].parent].kids
    ensures var d := PassageOf(s.tree[s.tree[w].parent].kids, w, w2, onTop);
            var s1 := Restacked(s, w, d);
            && (d.passed == [] ==> DoStack(s, root, maxDepth, w, w2, onTop) == s)
            && (d.passed != [] && !s.place[w].isOpen ==> DoStack(s, root, maxDepth, w, w2, onTop) == s1)
            && (d.passed != [] && s.place[w].isOpen && Level(s1.tree, maxDepth, w, d.Order()) ==>
                  DoStack(s, root, maxDepth, w, w2, onTop) == RestackResult(s1, maxDepth, w, d.Order(), d.up))
  {
    hide Restacked, RestackResult, Level, PassageOf, Passage.Order;
  }

  lemma {:induction false} DoEndsAre(s: State, root: Window, maxDepth: nat, w: Window)
    ensures w == root ==> DoTop(s, root, maxDepth, w) == DoBottom(s, root, maxDepth, w) == s
    ensures Usable(s, root, maxDepth, w) && s.tree[s.tree[w].parent].kids != [] ==>
              var kids := s.tree[s.tree[w].parent].kids;
              && DoTop(s, root, maxDepth, w) == (if w == kids[0] then s else DoStack(s, root, maxDepth, w, kids[0], true))
              && DoBottom(s, root, maxDepth, w) == (if w == kids[|kids| - 1] then s else DoStack(s, root, maxDepth, w, kids[|kids| - 1], false))
  {
    hide Restacked, RestackResult, Level, PassageOf;
  }

  lemma {:induction false} DoDeleteIs(s: State, root: Window, maxDepth: nat, w: Window)
    ensures w == root ==> DoDelete(s, root, maxDepth, w) == s
    ensures Usable(s, root, maxDepth, w) ==>
              && s.Domains() && w in s.tree && s.tree[w].parent != null && s.tree[w].parent in s.tree
              && CloseResult(s, root, maxDepth, w).Domains() && CloseResult(s, root, maxDepth, w).tree == s.tree
              && DoDelete(s, root, maxDepth, w) == Pruned(if AllOpen(s.tree, s.place, w) then CloseResult(s, root, maxDepth, w) else s, w)
  {
    hide CloseResult, AllOpen, Pruned;
    if Usable(s, root, maxDepth, w) { CloseFrame(s, root, maxDepth, w); }
  }

  lemma {:induction false} CopyIs(s: State, root: Window, v: Window, x0: int, y0: int, width: int, height: int, w: Window, x1: int, y1: int)
    requires s.Domains() && v in s.tree && w in s.tree && v in s.place && w in s.place
    ensures var from, to := s.place[v].area, s.place[w].area;
            DoCopy(s, root, v, x0, y0, width, height, w, x1, y1)
            == DoDraw(s, root, w, CopyPaint(Source(s, root, v), from, to.x0 + x1 - from.x0 - x0, to.y0 + y1 - from.y0 - y0),
                      Rect(to.x0 + x1, to.y0 + y1, width, height), to)
  {
    hide DoDraw, CopyPaint, Source;
  }

  lemma {:induction false} DoDrawIs(s: State, root: Window, w: Window, paint: Paint, r: Rect, clip: Rect)
    requires s.Domains() && w in s.tree
    ensures DoDraw(s, root, w, paint, r, clip) == if w == root then RootDrawn(s, w, paint, r, clip) else Drawn(s, w, paint, r, clip)
  {
    hide RootDrawn, Drawn;
  }

  lemma {:induction false} DoRefreshIs(s: State, root: Window, maxDepth: nat)
    requires Shape(s.tree, maxDepth) && root in s.tree
    ensures DoRefresh(s, root, maxDepth) == Fold(s, RedrawIfDirty, Pre(s.tree, maxDepth, {}, root))
  {
    hide Fold, Pre;
  }

  /** Requests for unknown windows change nothing. */
  lemma {:induction false} Unknown(s: State, root: Window, maxDepth: nat, w: Window)
    requires s.Domains() && w !in s.tree
    ensures Inert(s, root, maxDepth, w)
  {
    hide OpenResult, CloseResult, MoveResult, DoStack, DeleteResult;
  }

  ghost predicate Inert(s: State, root: Window, maxDepth: nat, w: Window) {
    && w !in s.place && DoClose(s, root, maxDepth, w) == s && DoTop(s, root, maxDepth, w) == s
    && DoBottom(s, root, maxDepth, w) == s && DoDelete(s, root, maxDepth, w) == s
    && forall x, y :: DoOpen(s, root, maxDepth, w, x, y) == s && DoMove(s, root, maxDepth, w, x, y) == s
  }

  // ----- Steps -----

  /** A state, a bound for the depth of its tree, and window_find_cache. */
  datatype World = World(s: State, maxDepth: nat, cache: Window?)

  /** The cache does not name a freed window. */
  ghost predicate CacheOK(a: World) {
    a.cache != null ==> a.cache in a.s.tree
  }

  ghost predicate Creates(a: World, parent: Window, place: Place, b: World, w: Window)
    requires a.s.Domains() && parent in a.s.tree
  {
    && w !in a.s.tree && b.s == Created(a.s, parent, w, place, (p: Pixel) => 0)
    && b.maxDepth == DepthWith(a.s.tree, a.maxDepth, parent) && b.cache == a.cache
  }

  lemma {:induction false} CreatesIs(a: World, parent: Window, place: Place, b: World, w: Window)
    requires a.s.Domains() && parent in a.s.tree && w !in a.s.tree
    requires b == World(Created(a.s, parent, w, place, (p: Pixel) => 0), DepthWith(a.s.tree, a.maxDepth, parent), a.cache)
    ensures Creates(a, parent, place, b, w)
  {
    hide Created;
  }

  /** The server in the world `a` serves the request and is then in the world `b`. */
  ghost predicate Step(a: World, q: Request, b: World, root: Window, background: Window) {
    var s, md := a.s, a.maxDepth;
    match q
    case ToCreate(parent, width, height, border, title, titleHeight) =>
      if s.Domains() && parent in s.tree && 0 < width && 0 < height && 0 <= titleHeight then
        exists w :: w in b.s.tree && Creates(a, parent, NewPlace(width, height, border, title, titleHeight), b, w)
      else b == a
    case ToOpen(w, x, y) => b == a.(s := DoOpen(s, root, md, w, x, y))
    case ToClose(w) => b == if Plain(root, background, w) then a.(s := DoClose(s, root, md, w)) else a
    case ToMove(w, x, y) => b == if Plain(root, background, w) then a.(s := DoMove(s, root, md, w, x, y)) else a
    case ToTop(w) => b == a.(s := DoTop(s, root, md, w))
    case ToBottom(w) => b == a.(s := DoBottom(s, root, md, w))
    case ToDelete(w) => b == if Plain(root, background, w) then Deletion(a, root, w) else a
    case ToPlot(w, x, y, paint) =>
      b == if w in s.place then a.(s := DoDraw(s, root, w, paint, BoxAt(s.place[w].area, x, y, 1, 1), s.place[w].area)) else a
    case ToBox(w, x, y, width, height, paint) =>
      b == if w in s.place then a.(s := DoDraw(s, root, w, paint, BoxAt(s.place[w].area, x, y, width, height), s.place[w].area)) else a
    case ToDecorate(w, r, paint) =>
      b == if w in s.place && w != root then a.(s := DoDraw(s, root, w, paint, r, Whole(s.place[w]))) else a
    case ToCopy(v, x0, y0, width, height, w, x1, y1) =>
      b == if v in s.place && w in s.place then a.(s := DoCopy(s, root, v, x0, y0, width, height, w, x1, y1)) else a
    case ToFind(x, y, useCache) => b == DoFind(a, root, Pixel(x, y), useCache)
    case ToRefresh => b == a.(s := DoRefresh(s, root, md))
  }

  /** window_delete: a deleted window is forgotten in the cache. */
  ghost function Deletion(a: World, root: Window, w: Window): World {
    var s' := DoDelete(a.s, root, a.maxDepth, w);
    a.(s := s', cache := Remembered(a.cache, s'.tree))
  }

  lemma {:induction false} DeletionIs(a: World, root: Window, w: Window)
    ensures var s' := DoDelete(a.s, root, a.maxDepth, w);
            Deletion(a, root, w) == World(s', a.maxDepth, Remembered(a.cache, s'.tree))
  {
    hide DoDelete;
  }

  /** The cached window, if it is open and one of its rectangles holds the point. */
  ghost predicate Hits(a: World, p: Pixel) {
    && a.cache != null && a.s.Domains() && a.cache in a.s.tree && a.s.place[a.cache].isOpen
    && IndexAt(a.s.shown[a.cache].recs, p) < |a.s.shown[a.cache].recs|
  }

  /** window_find: on a hit the rectangle goes to the front of its list, otherwise the window
      found by the search is remembered. */
  ghost function DoFind(a: World, root: Window, p: Pixel, useCache: bool): World {
    if !useCache then a
    else if Hits(a, p) then a.(s := Finding.Reordered(a.s, a.cache, IndexAt(a.s.shown[a.cache].recs, p)))
    else if Shape(a.s.tree, a.maxDepth) && root in a.s.tree then a.(cache := Find(a.s.tree, a.maxDepth, a.s.place, root, p))
    else a
  }

  lemma {:induction false} DoFindIs(a: World, root: Window, p: Pixel, useCache: bool)
    requires a.s.Domains() && Shape(a.s.tree, a.maxDepth) && root in a.s.tree
    ensures !useCache ==> DoFind(a, root, p, useCache) == a
    ensures useCache && a.cache != null && a.cache in a.s.tree && a.s.place[a.cache].isOpen
            && IndexAt(a.s.shown[a.cache].recs, p) < |a.s.shown[a.cache].recs| ==>
              DoFind(a, root, p, useCache) == a.(s := Finding.Reordered(a.s, a.cache, IndexAt(a.s.shown[a.cache].recs, p)))
    ensures useCache && (a.cache == null || a.cache !in a.s.tree || !a.s.place[a.cache].isOpen
                         || IndexAt(a.s.shown[a.cache].recs, p) == |a.s.shown[a.cache].recs|) ==>
              DoFind(a, root, p, useCache) == a.(cache := Find(a.s.tree, a.maxDepth, a.s.place, root, p))
  {
    hide Finding.Reordered, IndexAt, Find, Shape;
  }

  /** The exact condition under which a request leaves some window incoherent: a close, a
      delete or a move with a stale border, or a drawing into the root over other windows. */
  ghost predicate Spoils(a: World, q: Request, root: Window, background: Window) {
    var s, md := a.s, a.maxDepth;
    match q
    case ToClose(w) => Plain(root, background, w) && Usable(s, root, md, w) && AllOpen(s.tree, s.place, w) && StaleBorder(s, w)
    case ToDelete(w) => Plain(root, background, w) && Usable(s, root, md, w) && AllOpen(s.tree, s.place, w) && StaleBorder(s, w)
    case ToMove(w, x, y) =>
      Plain(root, background, w) && Moves(s, root, md, w, x, y) && StaleMove(s, w, x - s.place[w].pos.x0, y - s.place[w].pos.y0)
    case ToPlot(w, x, y, paint) => w == root && w in s.place && Defaces(s, paint, BoxAt(s.place[w].area, x, y, 1, 1), s.place[w].area)
    case ToBox(w, x, y, width, height, paint) =>
      w == root && w in s.place && Defaces(s, paint, BoxAt(s.place[w].area, x, y, width, height), s.place[w].area)
    case ToCopy(v, x0, y0, width, height, w, x1, y1) =>
      w == root && v in s.place && w in s.place && Defaces(s, CopyColours(s, root, v, x0, y0, w, x1, y1), CopyBox(s, w, x1, y1, width, height), s.place[w].area)
    case _ => false
  }

  /** What one step keeps. */
  ghost predicate Kept(a: World, b: World, root: Window, background: Window, spoils: bool) {
    && Fine(b.s, root, background, b.maxDepth) && (CacheOK(a) ==> CacheOK(b))
    && (a.s.Domains() && b.s.Domains() && AllCoherent(a.s) ==> (AllCoherent(b.s) <==> !spoils))
  }

  lemma {:induction false} KeptSame(a: World, root: Window, background: Window)
    requires Fine(a.s, root, background, a.maxDepth)
    ensures Kept(a, a, root, background, false)
  {
  }

  /** Every request keeps the invariant and a cache that names a live window, and the coherence of all windows exactly when it is
      not one of the spoiling ones. */
  lemma {:induction false} StepTheorem(a: World, q: Request, b: World, root: Window, background: Window)
    requires Fine(a.s, root, background, a.maxDepth) && Step(a, q, b, root, background)
    ensures Kept(a, b, root, background, Spoils(a, q, root, background))
  {
    hide Fine, Kept, Usable, DoOpen, DoClose, DoMove, DoTop, DoBottom, DoDelete, DoDraw, DoRefresh, StaleBorder, StaleMove, Defaces, AllOpen, Moves, Creates, Deletion, DoFind, DoCopy, CopyColours, CopyBox, NewPlace, BoxAt, Whole;
    var s, md := a.s, a.maxDepth;
    KeptSame(a, root, background);
    match q
    case ToCreate(parent, width, height, border, title, titleHeight) =>
      if s.Domains() && parent in s.tree && 0 < width && 0 < height && 0 <= titleHeight {
        var w :| w in b.s.tree && Creates(a, parent, NewPlace(width, height, border, title, titleHeight), b, w);
        KeptCreate(a, parent, NewPlace(width, height, border, title, titleHeight), b, w, root, background);
      }
    case ToOpen(w, x, y) => KeptOpen(a, w, x, y, root, background);
    case ToClose(w) => if Plain(root, background, w) { KeptClose(a, w, root, background); }
    case ToMove(w, x, y) => if Plain(root, background, w) { KeptMove(a, w, x, y, root, background); }
    case ToTop(w) => KeptEnds(a, w, root, background);
    case ToBottom(w) => KeptEnds(a, w, root, background);
    case ToDelete(w) => if Plain(root, background, w) { KeptDelete(a, w, root, background); }
    case ToPlot(w, x, y, paint) =>
      if w in s.place { KeptDraw(a, w, paint, BoxAt(s.place[w].area, x, y, 1, 1), s.place[w].area, root, background); }
    case ToBox(w, x, y, width, height, paint) =>
      if w in s.place { KeptDraw(a, w, paint, BoxAt(s.place[w].area, x, y, width, height), s.place[w].area, root, background); }
    case ToDecorate(w, r, paint) =>
      if w in s.place && w != root { KeptDecorate(a, w, paint, r, root, background); }
    case ToCopy(v, x0, y0, width, height, w, x1, y1) =>
      if v in s.place && w in s.place { KeptCopy(a, v, x0, y0, width, height, w, x1, y1, root, background); }
    case ToFind(x, y, useCache) => KeptFind(a, Pixel(x, y), useCache, root, background);
    case ToRefresh => KeptRefresh(a, root, background);
  }

  // ----- One kind of request after the other -----

  lemma {:induction false} MakeKept(a: World, b: World, root: Window, background: Window, spoils: bool)
    requires Fine(b.s, root, background, b.maxDepth) && (CacheOK(a) ==> CacheOK(b))
    requires a.s.Domains() && b.s.Domains() && (AllCoherent(a.s) ==> (AllCoherent(b.s) <==> !spoils))
    ensures Kept(a, b, root, background, spoils)
  {
    hide Fine, AllCoherent;
  }

  lemma {:induction false} KeptCreate(a: World, parent: Window, place: Place, b: World, w: Window, root: Window, background: Window)
    requires Fine(a.s, root, background, a.maxDepth) && a.s.Domains() && parent in a.s.tree && PlaceOK(place) && !place.isOpen
    requires Creates(a, parent, place, b, w)
    ensures Kept(a, b, root, background, false)
  {
    hide Fine, AllCoherent, Created, PlaceOK;
    DeeperFine(a.s, root, background, a.maxDepth, b.maxDepth);
    CreateKeeps(a.s, root, background, b.maxDepth, parent, w, place, (p: Pixel) => 0);
    FineParts(b.s, root, background, b.maxDepth);
    MakeKept(a, b, root, background, false);
  }

  lemma {:induction false} KeptOpen(a: World, w: Window, x: int, y: int, root: Window, background: Window)
    requires Fine(a.s, root, background, a.maxDepth)
    ensures Kept(a, a.(s := DoOpen(a.s, root, a.maxDepth, w, x, y)), root, background, false)
  {
    hide Fine, Kept, Usable, AllCoherent, OpenResult;
    FineParts(a.s, root, background, a.maxDepth);
    KeptSame(a, root, background);
    if Usable(a.s, root, a.maxDepth, w) {
      UsableTree(a.s, root, a.maxDepth, w);
      if !a.s.place[w].isOpen {
        OpenKeeps(a.s, root, background, a.maxDepth, w, x, y);
        FineParts(OpenResult(a.s, root, a.maxDepth, w, x, y), root, background, a.maxDepth);
        MakeKept(a, a.(s := OpenResult(a.s, root, a.maxDepth, w, x, y)), root, background, false);
      }
    }
  }

  lemma {:induction false} KeptClose(a: World, w: Window, root: Window, background: Window)
    requires Fine(a.s, root, background, a.maxDepth) && Plain(root, background, w)
    ensures Kept(a, a.(s := DoClose(a.s, root, a.maxDepth, w)), root, background,
                 Usable(a.s, root, a.maxDepth, w) && AllOpen(a.s.tree, a.s.place, w) && StaleBorder(a.s, w))
  {
    hide Fine, Kept, Usable, AllCoherent, CloseResult, StaleBorder, AllOpen;
    FineParts(a.s, root, background, a.maxDepth);
    KeptSame(a, root, background);
    if Usable(a.s, root, a.maxDepth, w) && AllOpen(a.s.tree, a.s.place, w) {
      CloseFrame(a.s, root, a.maxDepth, w);
      CloseKeeps(a.s, root, background, a.maxDepth, w);
      MakeKept(a, a.(s := CloseResult(a.s, root, a.maxDepth, w)), root, background, StaleBorder(a.s, w));
    }
  }

  lemma {:induction false} KeptMove(a: World, w: Window, x: int, y: int, root: Window, background: Window)
    requires Fine(a.s, root, background, a.maxDepth) && Plain(root, background, w)
    ensures Kept(a, a.(s := DoMove(a.s, root, a.maxDepth, w, x, y)), root, background,
                 Moves(a.s, root, a.maxDepth, w, x, y) && StaleMove(a.s, w, x - a.s.place[w].pos.x0, y - a.s.place[w].pos.y0))
  {
    hide Fine, Kept, Usable, AllCoherent, MoveResult, StaleMove, FreeMove, MovedTo;
    FineParts(a.s, root, background, a.maxDepth);
    KeptSame(a, root, background);
    if Moves(a.s, root, a.maxDepth, w, x, y) {
      UsableTree(a.s, root, a.maxDepth, w);
      var dx, dy := x - a.s.place[w].pos.x0, y - a.s.place[w].pos.y0;
      var free := FreeMove(a.s.tree, a.s.place, MovedTo(a.s.tree, a.s.place, w, dx, dy), w);
      MoveKeeps(a.s, root, background, a.maxDepth, w, dx, dy, free);
      MakeKept(a, a.(s := MoveResult(a.s, root, a.maxDepth, w, dx, dy, free)), root, background, StaleMove(a.s, w, dx, dy));
    }
  }

  lemma {:induction false} KeptStack(a: World, w: Window, w2: Window, onTop: bool, root: Window, background: Window)
    requires Fine(a.s, root, background, a.maxDepth)
    ensures Kept(a, a.(s := DoStack(a.s, root, a.maxDepth, w, w2, onTop)), root, background, false)
  {
    hide Fine, Kept, Usable, AllCoherent, RestackResult, Restacked, PassageOf, Level, Passage.Order;
    FineParts(a.s, root, background, a.maxDepth);
    KeptSame(a, root, background);
    if Siblings(a.s, root, a.maxDepth, w, w2) {
      UsableTree(a.s, root, a.maxDepth, w);
      var kids := a.s.tree[a.s.tree[w].parent].kids;
      var d := PassageOf(kids, w, w2, onTop);
      KidsAt(a.s.tree, a.maxDepth, a.s.tree[w].parent);
      PassageIs(kids, w, w2, onTop);
      MakePasses(a.s, root, a.maxDepth, w, d);
      RestackKeeps(a.s, root, background, a.maxDepth, w, d);
      var s1 := Restacked(a.s, w, d);
      if d.passed != [] {
        var b := if a.s.place[w].isOpen then RestackResult(s1, a.maxDepth, w, d.Order(), d.up) else s1;
        FineParts(b, root, background, a.maxDepth);
        MakeKept(a, a.(s := b), root, background, false);
      }
    }
  }

  lemma {:induction false} MakePasses(s: State, root: Window, maxDepth: nat, w: Window, d: Passage)
    requires Usable(s, root, maxDepth, w) && s.tree[s.tree[w].parent].kids == d.Old(w)
    ensures Passes(s, root, maxDepth, w, d)
  {
  }

  lemma {:induction false} KeptEnds(a: World, w: Window, root: Window, background: Window)
    requires Fine(a.s, root, background, a.maxDepth)
    ensures Kept(a, a.(s := DoTop(a.s, root, a.maxDepth, w)), root, background, false)
    ensures Kept(a, a.(s := DoBottom(a.s, root, a.maxDepth, w)), root, background, false)
  {
    hide Fine, Kept, Usable, DoStack;
    KeptSame(a, root, background);
    if Usable(a.s, root, a.maxDepth, w) {
      UsableTree(a.s, root, a.maxDepth, w);
      var kids := a.s.tree[a.s.tree[w].parent].kids;
      if kids != [] {
        KeptStack(a, w, kids[0], true, root, background);
        KeptStack(a, w, kids[|kids| - 1], false, root, background);
      }
    }
  }

  lemma {:induction false} KeptDelete(a: World, w: Window, root: Window, background: Window)
    requires Fine(a.s, root, background, a.maxDepth) && Plain(root, background, w)
    ensures Kept(a, Deletion(a, root, w), root, background,
                 Usable(a.s, root, a.maxDepth, w) && AllOpen(a.s.tree, a.s.place, w) && StaleBorder(a.s, w))
  {
    hide Fine, Kept, Usable, AllCoherent, DeleteResult, CloseResult, StaleBorder, AllOpen;
    FineParts(a.s, root, background, a.maxDepth);
    KeptSame(a, root, background);
    if Usable(a.s, root, a.maxDepth, w) {
      DeleteTheorem(a.s, root, background, a.maxDepth, w);
      FineParts(DeleteResult(a.s, root, a.maxDepth, w), root, background, a.maxDepth);
      MakeKept(a, Deletion(a, root, w), root, background, AllOpen(a.s.tree, a.s.place, w) && StaleBorder(a.s, w));
    } else {
      MakeKept(a, Deletion(a, root, w), root, background, false);
    }
  }

  lemma {:induction false} KeptDraw(a: World, w: Window, paint: Paint, r: Rect, clip: Rect, root: Window, background: Window)
    requires Fine(a.s, root, background, a.maxDepth) && w in a.s.place && clip == a.s.place[w].area
    ensures Kept(a, a.(s := DoDraw(a.s, root, w, paint, r, clip)), root, background, w == root && Defaces(a.s, paint, r, clip))
  {
    hide Kept, Sound, AllCoherent, Drawn, RootDrawn, Defaces, RootCovered;
    FineParts(a.s, root, background, a.maxDepth);
    FinePlaces(a.s, root, background, a.maxDepth, w);
    var b := DoDraw(a.s, root, w, paint, r, clip);
    if w == root {
      BareIs(a.s, root);
      RootDrawTheorem(a.s, root, a.maxDepth, paint, r, clip);
    } else {
      DrawTheorem(a.s, root, a.maxDepth, w, paint, r, clip);
    }
    FineAgain(a.s, b, root, background, a.maxDepth);
    MakeKept(a, a.(s := b), root, background, w == root && Defaces(a.s, paint, r, clip));
  }

  lemma {:induction false} BareIs(s: State, root: Window)
    requires RootBare(s, root)
    ensures root in s.tree && root in s.shown && s.shown[root] == Shown([], true)
  {
  }

  lemma {:induction false} FinePlaces(s: State, root: Window, background: Window, maxDepth: nat, w: Window)
    requires Fine(s, root, background, maxDepth) && w in s.place
    ensures w in s.tree && Contains(Rect(0, 0, s.place[w].pos.w, s.place[w].pos.h), s.place[w].area)
  {
    assert PlaceOK(s.place[w]);
  }

  lemma {:induction false} KeptDecorate(a: World, w: Window, paint: Paint, r: Rect, root: Window, background: Window)
    requires Fine(a.s, root, background, a.maxDepth) && w in a.s.place && w != root
    ensures Kept(a, a.(s := DoDraw(a.s, root, w, paint, r, Whole(a.s.place[w]))), root, background, false)
  {
    hide Kept, Sound, AllCoherent, Drawn, RootCovered;
    var clip := Whole(a.s.place[w]);
    FineParts(a.s, root, background, a.maxDepth);
    FinePlaces(a.s, root, background, a.maxDepth, w);
    DrawTheorem(a.s, root, a.maxDepth, w, paint, r, clip);
    FineAgain(a.s, Drawn(a.s, w, paint, r, clip), root, background, a.maxDepth);
    MakeKept(a, a.(s := Drawn(a.s, w, paint, r, clip)), root, background, false);
  }

  lemma {:induction false} KeptCopy(a: World, v: Window, x0: int, y0: int, width: int, height: int, w: Window, x1: int, y1: int, root: Window, background: Window)
    requires Fine(a.s, root, background, a.maxDepth) && v in a.s.place && w in a.s.place
    ensures Kept(a, a.(s := DoCopy(a.s, root, v, x0, y0, width, height, w, x1, y1)), root, background,
                 w == root && Defaces(a.s, CopyColours(a.s, root, v, x0, y0, w, x1, y1), CopyBox(a.s, w, x1, y1, width, height), a.s.place[w].area))
  {
    hide Fine, Kept, DoDraw, Defaces, CopyColours, CopyBox;
    FinePlaces(a.s, root, background, a.maxDepth, w);
    KeptDraw(a, w, CopyColours(a.s, root, v, x0, y0, w, x1, y1), CopyBox(a.s, w, x1, y1, width, height), a.s.place[w].area, root, background);
  }

  lemma {:induction false} KeptFind(a: World, p: Pixel, useCache: bool, root: Window, background: Window)
    requires Fine(a.s, root, background, a.maxDepth)
    ensures Kept(a, DoFind(a, root, p, useCache), root, background, false)
  {
    hide Fine, Kept, Sound, Shape, AllCoherent, Finding.Reordered, IndexAt, Find, RootCovered;
    FineParts(a.s, root, background, a.maxDepth);
    KeptSame(a, root, background);
    if useCache {
      if Hits(a, p) {
        ReorderedOK(a.s, root, a.maxDepth, a.cache, IndexAt(a.s.shown[a.cache].recs, p));
        FineAgain(a.s, DoFind(a, root, p, useCache).s, root, background, a.maxDepth);
      } else {
        FindIn(a.s, root, background, a.maxDepth, p);
      }
      MakeKept(a, DoFind(a, root, p, useCache), root, background, false);
    }
  }

  lemma {:induction false} FindIn(s: State, root: Window, background: Window, maxDepth: nat, p: Pixel)
    requires Fine(s, root, background, maxDepth)
    ensures Shape(s.tree, maxDepth) && root in s.tree
    ensures Find(s.tree, maxDepth, s.place, root, p) != null ==> Find(s.tree, maxDepth, s.place, root, p) in s.tree
  {
    hide Shape;
    FoundIn(s.tree, maxDepth, s.place, root, p);
  }

  lemma {:induction false} KeptRefresh(a: World, root: Window, background: Window)
    requires Fine(a.s, root, background, a.maxDepth)
    ensures Kept(a, a.(s := DoRefresh(a.s, root, a.maxDepth)), root, background, false)
  {
    hide Fine, Kept, AllCoherent, Fold, Pre, UpToDate;
    FineParts(a.s, root, background, a.maxDepth);
    RedrawAllKeeps(a.s, root, background, a.maxDepth);
    var b := DoRefresh(a.s, root, a.maxDepth);
    FineParts(b, root, background, a.maxDepth);
    MakeKept(a, a.(s := b), root, background, false);
  }

  // ----- Runs -----

  /** `trace` lists the worlds that the server passes through while serving the requests. */
  ghost predicate IsRun(trace: seq<World>, requests: seq<Request>, root: Window, background: Window) {
    |trace| == |requests| + 1 && forall i :: 0 <= i < |requests| ==> Step(trace[i], requests[i], trace[i + 1], root, background)
  }

  /** Safety over every run: the invariant holds throughout -- so the rectangle lists always
      partition the screen and are those of a fresh computation. */
  lemma {:induction false} RunSafe(trace: seq<World>, requests: seq<Request>, root: Window, background: Window, n: nat)
    requires IsRun(trace, requests, root, background) && n < |trace| && Fine(trace[0].s, root, background, trace[0].maxDepth)
    ensures Fine(trace[n].s, root, background, trace[n].maxDepth) && (CacheOK(trace[0]) ==> CacheOK(trace[n]))
  {
    hide Fine, Step, Spoils, CacheOK;
    if n > 0 {
      RunSafe(trace, requests, root, background, n - 1);
      assert Step(trace[n - 1], requests[n - 1], trace[n], root, background);
      StepTheorem(trace[n - 1], requests[n - 1], trace[n], root, background);
    }
  }

  lemma {:induction false} RunStart(a: World, root: Window, background: Window)
    ensures IsRun([a], [], root, background)
  {
  }

  lemma {:induction false} RunOn(trace: seq<World>, requests: seq<Request>, i: nat, b: World, root: Window, background: Window)
    requires i < |requests| && |trace| == i + 1 && IsRun(trace, requests[..i], root, background)
    requires Step(trace[i], requests[i], b, root, background)
    ensures IsRun(trace + [b], requests[..i + 1], root, background)
  {
    hide Step;
    forall j | 0 <= j < i + 1 ensures Step((trace + [b])[j], requests[..i + 1][j], (trace + [b])[j + 1], root, background) {
      if j < i { assert Step(trace[j], requests[..i][j], trace[j + 1], root, background); }
    }
  }

  /** None of the first n requests spoils the coherence. */
  ghost predicate Unspoiled(trace: seq<World>, requests: seq<Request>, n: nat, root: Window, background: Window)
    requires n < |trace| && n <= |requests|
  {
    forall i :: 0 <= i < n ==> !Spoils(trace[i], requests[i], root, background)
  }

  /** As long as no request spoils it, the backing store of all windows stays coherent ... */
  lemma {:induction false} RunCoherent(trace: seq<World>, requests: seq<Request>, root: Window, background: Window, n: nat)
    requires IsRun(trace, requests, root, background) && n < |trace| && Fine(trace[0].s, root, background, trace[0].maxDepth)
    requires trace[0].s.Domains() && AllCoherent(trace[0].s)
    requires Unspoiled(trace, requests, n, root, background)
    ensures trace[n].s.Domains() && AllCoherent(trace[n].s)
  {
    hide Fine, Step, Spoils, AllCoherent;
    if n > 0 {
      RunCoherent(trace, requests, root, background, n - 1);
      RunSafe(trace, requests, root, background, n - 1);
      RunSafe(trace, requests, root, background, n);
      FineParts(trace[n].s, root, background, trace[n].maxDepth);
      StepTheorem(trace[n - 1], requests[n - 1], trace[n], root, background);
    }
  }

  /** ... and the first request that spoils it does leave a window incoherent. */
  lemma {:induction false} RunSpoiled(trace: seq<World>, requests: seq<Request>, root: Window, background: Window, n: nat)
    requires IsRun(trace, requests, root, background) && n < |requests| && Fine(trace[0].s, root, background, trace[0].maxDepth)
    requires trace[0].s.Domains() && AllCoherent(trace[0].s)
    requires Unspoiled(trace, requests, n, root, background)
    requires Spoils(trace[n], requests[n], root, background)
    ensures trace[n + 1].s.Domains() && !AllCoherent(trace[n + 1].s)
  {
    hide Fine, Step, Spoils, AllCoherent;
    RunCoherent(trace, requests, root, background, n);
    RunSafe(trace, requests, root, background, n);
    RunSafe(trace, requests, root, background, n + 1);
    FineParts(trace[n + 1].s, root, background, trace[n + 1].maxDepth);
    StepTheorem(trace[n], requests[n], trace[n + 1], root, background);
  }

  /** After a refresh, at the end of an unspoiled run, the whole screen is up to date. */
  lemma {:induction false} RunUpToDate(trace: seq<World>, requests: seq<Request>, root: Window, background: Window)
    requires IsRun(trace, requests, root, background) && Fine(trace[0].s, root, background, trace[0].maxDepth)
    requires trace[0].s.Domains() && AllCoherent(trace[0].s)
    requires Unspoiled(trace, requests, |requests|, root, background)
    requires requests != [] && requests[|requests| - 1] == ToRefresh
    ensures var last := trace[|requests|];
            Sound(last.s, root, last.maxDepth) && UpToDate(last.s, root, last.maxDepth)
  {
    hide Fine, AllCoherent, UpToDate, Spoils, Fold, Pre;
    var n := |requests| - 1;
    RunCoherent(trace, requests, root, background, n);
    RunSafe(trace, requests, root, background, n);
    FineParts(trace[n].s, root, background, trace[n].maxDepth);
    assert Step(trace[n], requests[n], trace[n + 1], root, background);
    RedrawAllKeeps(trace[n].s, root, background, trace[n].maxDepth);
  }

  /** All of this together */
  lemma {:induction false} RunsWell(trace: seq<World>, requests: seq<Request>, root: Window, background: Window)
    requires IsRun(trace, requests, root, background) && Fine(trace[0].s, root, background, trace[0].maxDepth)
    ensures |trace| == |requests| + 1 && trace[0].s.Domains()
    ensures forall i :: 0 <= i < |trace| ==> Fine(trace[i].s, root, background, trace[i].maxDepth)
    ensures forall i :: 0 <= i < |trace| && CacheOK(trace[0]) ==> CacheOK(trace[i])
    ensures var last := trace[|requests|];
            && last.s.Domains() && Sound(last.s, root, last.maxDepth)
            && (AllCoherent(trace[0].s) && Unspoiled(trace, requests, |requests|, root, background) ==>
                  AllCoherent(last.s) && (requests != [] && requests[|requests| - 1] == ToRefresh ==> UpToDate(last.s, root, last.maxDepth)))
  {
    hide *;
    RunLength(trace, requests, root, background);
    FineParts(trace[0].s, root, background, trace[0].maxDepth);
    forall i | 0 <= i < |trace| ensures Fine(trace[i].s, root, background, trace[i].maxDepth) && (CacheOK(trace[0]) ==> CacheOK(trace[i])) {
      RunSafe(trace, requests, root, background, i);
    }
    FineParts(trace[|requests|].s, root, background, trace[|requests|].maxDepth);
    if AllCoherent(trace[0].s) && Unspoiled(trace, requests, |requests|, root, background) {
      RunCoherent(trace, requests, root, background, |requests|);
      if requests != [] && requests[|requests| - 1] == ToRefresh { RunUpToDate(trace, requests, root, background); }
    }
  }

  lemma {:induction false} RunLength(trace: seq<World>, requests: seq<Request>, root: Window, background: Window)
    requires IsRun(trace, requests, root, background)
    ensures |trace| == |requests| + 1
  {
  }
}
