/** When window_close and window_move show old pixels: the condition StaleBorder looked at
    more closely.  It needs a parent with a border, and it does happen. */
module Borders {
  import opened Geometry
  import opened WindowTree
  import opened Orders
  import opened Visibility
  import opened Changes
  import opened Steps
  import opened Visitors
  import opened Backing
  import opened Coherence
  import opened Opening
  import opened Closing
  import opened Moving
  import opened Linking
  import opened Reordering
  import opened Lifecycle
  import opened Rooted
  import opened Drawing
  import opened Finding
  import opened Runs

  /** A stale pixel under an open window lies on the parent's border: inside the working area
      the parent would be covered, and then it is not drawn on the screen. */
  lemma {:induction false} StaleOnBorder(s: State, root: Window, maxDepth: nat, w: Window, p: Pixel)
    requires Usable(s, root, maxDepth, w) && s.place[w].isOpen && Coherent(s, s.tree[w].parent) && s.store[s.tree[w].parent].isDirty
    requires s.place[s.tree[w].parent].pos.Has(p) && s.place[w].pos.Has(p)
    ensures !s.place[s.tree[w].parent].work.Has(p)
  {
    var up := s.tree[w].parent;
    assert ParentOK(s.tree, w);
    UnhiddenShows(s, root, maxDepth, up, p);
    assert w in s.tree[up].kids;
  }

  /** A parent without a border, such as the background, never has a stale one: then closing
      and moving keep all windows coherent. */
  lemma {:induction false} BorderlessSafe(s: State, root: Window, maxDepth: nat, w: Window)
    requires Usable(s, root, maxDepth, w) && s.place[w].isOpen && AllCoherent(s)
    requires s.place[s.tree[w].parent].work == s.place[s.tree[w].parent].pos
    ensures !StaleBorder(s, w) && forall dx, dy :: !StaleMove(s, w, dx, dy)
  {
    hide TreeOK, Shape, PlacesOK, AllShownOK, Coherent;
    var up := s.tree[w].parent;
    assert Coherent(s, up);
    forall p | s.store[up].isDirty && s.place[up].pos.Has(p) && s.place[w].pos.Has(p) ensures false {
      StaleOnBorder(s, root, maxDepth, w, p);
    }
  }

  /** What a caller can see without comparing pixels: a parent that is not dirty, or does not
      meet the window, has no stale border under it. */
  lemma {:induction false} CleanSafe(s: State, w: Window)
    requires s.Domains() && w in s.tree && s.tree[w].parent != null && s.tree[w].parent in s.tree
    requires !s.store[s.tree[w].parent].isDirty || !Intersects(s.place[s.tree[w].parent].pos, s.place[w].pos)
    ensures !StaleBorder(s, w) && forall dx, dy :: !StaleMove(s, w, dx, dy)
  {
  }

  /** Drawing over the part of the parent that lies behind the window makes it stale, whatever
      came before: all it takes is a parent shown as a whole and a colour its bitmap lacks. */
  lemma {:induction false} DrawnStale(s: State, root: Window, maxDepth: nat, w: Window, r: Rect, c: Color, p: Pixel)
    requires Usable(s, root, maxDepth, w) && s.place[s.tree[w].parent].isOpen && !s.shown[s.tree[w].parent].hidden
    requires s.place[s.tree[w].parent].pos.Has(p) && s.place[w].pos.Has(p) && c != BitmapAt(s, s.tree[w].parent, p)
    requires r.Has(p.Plus(-s.place[s.tree[w].parent].pos.x0, -s.place[s.tree[w].parent].pos.y0))
    ensures var up := s.tree[w].parent;
            StaleBorder(Drawn(s, up, (q, b) => c, r, Whole(s.place[up])), w)
  {
    hide TreeOK, Shape, PlacesOK, AllShownOK, Painted;
    var up, pos := s.tree[w].parent, s.place[s.tree[w].parent].pos;
    var s' := Drawn(s, up, (q, b) => c, r, Whole(s.place[up]));
    PaintedAt(s.screen, (q, b) => c, r, Whole(s.place[up]), pos.x0, pos.y0, p);
    assert Whole(s.place[up]).Has(p.Plus(-pos.x0, -pos.y0));
    assert BitmapAt(s', up, p) == BitmapAt(s, up, p);
    assert s'.screen(p) == c;
  }

  /** Then closing the window, or moving it away from its parent, leaves the parent incoherent. */
  lemma {:induction false} DrawnSpoils(s: State, root: Window, background: Window, maxDepth: nat, w: Window, r: Rect, c: Color, p: Pixel, dx: int, dy: int)
    requires Fine(s, root, background, maxDepth) && Usable(s, root, maxDepth, w) && AllOpen(s.tree, s.place, w) && w != background
    requires s.Domains() && AllCoherent(s) && !s.shown[s.tree[w].parent].hidden
    requires s.place[s.tree[w].parent].pos.Has(p) && s.place[w].pos.Has(p) && c != BitmapAt(s, s.tree[w].parent, p)
    requires r.Has(p.Plus(-s.place[s.tree[w].parent].pos.x0, -s.place[s.tree[w].parent].pos.y0))
    ensures var up := s.tree[w].parent;
            var s' := Drawn(s, up, (q, b) => c, r, Whole(s.place[up]));
            var free := FreeMove(s'.tree, s'.place, MovedTo(s'.tree, s'.place, w, dx, dy), w);
            && Usable(s', root, maxDepth, w) && AllCoherent(s')
            && CloseResult(s', root, maxDepth, w).Domains() && !AllCoherent(CloseResult(s', root, maxDepth, w))
            && (!Intersects(s.place[up].pos, s.place[w].pos.Shift(dx, dy)) ==>
                  MoveResult(s', root, maxDepth, w, dx, dy, free).Domains() && !AllCoherent(MoveResult(s', root, maxDepth, w, dx, dy, free)))
  {
    hide TreeOK, Shape, PlacesOK, AllShownOK, Painted, AllCoherent, Coherent, CloseResult, MoveResult, MovedTo, FreeMove, Drawn, StaleBorder;
    var up := s.tree[w].parent;
    ParentOpen(s.tree, s.place, maxDepth, root, w);
    var s' := Drawn(s, up, (q, b) => c, r, Whole(s.place[up]));
    DrawnStale(s, root, maxDepth, w, r, c, p);
    DrawTheorem(s, root, maxDepth, up, (q, b) => c, r, Whole(s.place[up]));
    FineAgain(s, s', root, background, maxDepth);
    SpoiledNow(s', root, background, maxDepth, w, dx, dy);
  }

  lemma {:induction false} ParentOpen(t: Tree, pl: Places, maxDepth: nat, root: Window, w: Window)
    requires TreeOK(t, root, maxDepth) && w in t && w != root && AllOpen(t, pl, w)
    ensures t[w].parent != null && t[w].parent in pl && pl[t[w].parent].isOpen
  {
    ParentAt(t, maxDepth, root, w);
  }

  lemma {:induction false} SpoiledNow(s: State, root: Window, background: Window, maxDepth: nat, w: Window, dx: int, dy: int)
    requires Fine(s, root, background, maxDepth) && Usable(s, root, maxDepth, w) && AllOpen(s.tree, s.place, w) && w != background
    requires s.Domains() && AllCoherent(s) && StaleBorder(s, w)
    ensures CloseResult(s, root, maxDepth, w).Domains() && !AllCoherent(CloseResult(s, root, maxDepth, w))
    ensures var free := FreeMove(s.tree, s.place, MovedTo(s.tree, s.place, w, dx, dy), w);
            !Intersects(s.place[s.tree[w].parent].pos, s.place[w].pos.Shift(dx, dy)) ==>
              MoveResult(s, root, maxDepth, w, dx, dy, free).Domains() && !AllCoherent(MoveResult(s, root, maxDepth, w, dx, dy, free))
  {
    hide Fine, TreeOK, Shape, AllCoherent, CloseResult, MoveResult, MovedTo, FreeMove, StaleBorder, AllOpen;
    IsOpen(s.tree, s.place, w);
    UsableTree(s, root, maxDepth, w);
    var free := FreeMove(s.tree, s.place, MovedTo(s.tree, s.place, w, dx, dy), w);
    CloseKeeps(s, root, background, maxDepth, w);
    FineParts(CloseResult(s, root, maxDepth, w), root, background, maxDepth);
    MoveKeeps(s, root, background, maxDepth, w, dx, dy, free);
    FineParts(MoveResult(s, root, maxDepth, w, dx, dy, free), root, background, maxDepth);
  }

  /** Only borderless windows have children: what clients get that use client_create only. */
  ghost predicate Flat(t: Tree, pl: Places, background: Window) {
    && background in pl && pl[background].work == pl[background].pos
    && forall w :: w in t && t[w].parent != null && t[w].parent in pl ==> pl[t[w].parent].work == pl[t[w].parent].pos
  }

  lemma {:induction false} InitialFlat(root: Window, background: Window, all: Rect, screen: Picture, copy: Picture)
    ensures var s := Initial(root, background, all, screen, copy); Flat(s.tree, s.place, background)
  {
  }

  lemma {:induction false} FlatSafe(s: State, root: Window, background: Window, maxDepth: nat, w: Window)
    requires Usable(s, root, maxDepth, w) && AllCoherent(s) && Flat(s.tree, s.place, background)
    ensures s.place[w].isOpen ==> !StaleBorder(s, w) && forall dx, dy :: !StaleMove(s, w, dx, dy)
  {
    hide AllCoherent, StaleBorder, StaleMove;
    if s.place[w].isOpen { BorderlessSafe(s, root, maxDepth, w); }
  }

  /** Whatever moves windows and restacks them keeps them flat. */
  lemma {:induction false} FlatKept(t0: Tree, pl0: Places, t1: Tree, pl1: Places, background: Window)
    requires Flat(t0, pl0, background) && t0.Keys == pl0.Keys == t1.Keys == pl1.Keys
    requires forall x :: x in t0 ==> t1[x].parent == t0[x].parent
    requires forall x :: x in pl0 ==> pl0[x].work == pl0[x].pos ==> pl1[x].work == pl1[x].pos
    ensures Flat(t1, pl1, background)
  {
  }

  lemma {:induction false} FlatOpened(t: Tree, pl: Places, w: Window, x: int, y: int, background: Window)
    requires Flat(t, pl, background) && t.Keys == pl.Keys && w in pl
    ensures Flat(t, Opened(t, pl, w, x, y), background)
  {
    FlatKept(t, pl, t, Opened(t, pl, w, x, y), background);
  }

  lemma {:induction false} FlatMoved(t: Tree, pl: Places, w: Window, dx: int, dy: int, background: Window)
    requires Flat(t, pl, background) && t.Keys == pl.Keys && w in pl
    ensures Flat(t, MovedTo(t, pl, w, dx, dy), background)
  {
    FlatKept(t, pl, t, MovedTo(t, pl, w, dx, dy), background);
  }

  lemma {:induction false} FlatClosed(t: Tree, pl: Places, w: Window, background: Window)
    requires Flat(t, pl, background) && t.Keys == pl.Keys && w in pl
    ensures Flat(t, pl[w := pl[w].(isOpen := false)], background)
  {
    FlatKept(t, pl, t, pl[w := pl[w].(isOpen := false)], background);
  }

  lemma {:induction false} FlatPlanted(t: Tree, maxDepth: nat, root: Window, pl: Places, parent: Window, w: Window, a: Place, background: Window)
    requires Flat(t, pl, background) && t.Keys == pl.Keys && w !in t && background in t && TreeOK(t, root, maxDepth)
    requires parent in t && pl[parent].work == pl[parent].pos
    ensures Flat(Planted(t, parent, w), pl[w := a], background)
  {
    var t' := Planted(t, parent, w);
    forall x | x in t' && x != w ensures t'[x].parent == t[x].parent && (t[x].parent != null ==> t[x].parent in t) {
      ParentPlanted(t, parent, w, x);
      if t[x].parent != null { ParentAt(t, maxDepth, root, x); }
    }
    assert t'[w].parent == parent;
  }

  lemma {:induction false} FlatWithout(t: Tree, pl: Places, top: Window, pl': Places, background: Window)
    requires Flat(t, pl, background) && t.Keys == pl.Keys && top in t && t[top].parent != null && t[top].parent in t
    requires var t' := WithoutSubtree(t, top); t'.Keys == pl'.Keys && background in t' && forall x :: x in t' ==> x in pl && pl'[x] == pl[x]
    ensures Flat(WithoutSubtree(t, top), pl', background)
  {
  }

  // ----- Runs without bordered parents -----

  /** Children only for windows without a border, and no drawing into the root. */
  ghost predicate Modest(s: State, q: Request, root: Window) {
    match q
    case ToCreate(parent, width, height, border, title, titleHeight) => parent in s.place ==> s.place[parent].work == s.place[parent].pos
    case ToPlot(w, x, y, paint) => w != root
    case ToBox(w, x, y, width, height, paint) => w != root
    case ToCopy(v, x0, y0, width, height, w, x1, y1) => w != root
    case _ => true
  }

  /** No such request spoils anything ... */
  lemma {:induction false} ModestSafe(a: World, q: Request, root: Window, background: Window)
    requires a.s.Domains() && AllCoherent(a.s) && Flat(a.s.tree, a.s.place, background) && Modest(a.s, q, root)
    ensures !Spoils(a, q, root, background)
  {
    hide AllCoherent, Usable, Flat, StaleBorder, StaleMove, Defaces, BoxAt, CopyColours, CopyBox, AllOpen;
    if Spoils(a, q, root, background) {
      match q
      case ToClose(w) => ModestAt(a, w, root, background);
      case ToDelete(w) => ModestAt(a, w, root, background);
      case ToMove(w, x, y) => ModestAt(a, w, root, background);
    }
  }

  lemma {:induction false} ModestAt(a: World, w: Window, root: Window, background: Window)
    requires a.s.Domains() && AllCoherent(a.s) && Flat(a.s.tree, a.s.place, background) && Usable(a.s, root, a.maxDepth, w)
    ensures AllOpen(a.s.tree, a.s.place, w) ==> !StaleBorder(a.s, w)
    ensures w in a.s.place && (a.s.place[w].isOpen ==> forall dx, dy :: !StaleMove(a.s, w, dx, dy))
  {
    hide AllCoherent, Flat, StaleBorder, StaleMove, TreeOK, Shape, Sound;
    FlatSafe(a.s, root, background, a.maxDepth, w);
    if AllOpen(a.s.tree, a.s.place, w) { IsOpen(a.s.tree, a.s.place, w); }
  }

  /** ... and all of them leave the windows flat. */
  lemma {:induction false} FlatStep(a: World, q: Request, b: World, root: Window, background: Window)
    requires Fine(a.s, root, background, a.maxDepth) && Flat(a.s.tree, a.s.place, background) && Modest(a.s, q, root)
    requires Step(a, q, b, root, background)
    ensures Flat(b.s.tree, b.s.place, background)
  {
    hide Fine, Flat, DoOpen, DoClose, DoMove, DoTop, DoBottom, DoDelete, DoDraw, DoRefresh, Creates, DoFind, DoCopy, Deletion, NewPlace, BoxAt, Whole;
    var s, md := a.s, a.maxDepth;
    match q
    case ToCreate(parent, width, height, border, title, titleHeight) =>
      if s.Domains() && parent in s.tree && 0 < width && 0 < height && 0 <= titleHeight {
        var place := NewPlace(width, height, border, title, titleHeight);
        var w :| w in b.s.tree && Creates(a, parent, place, b, w);
        FlatCreate(a, parent, place, b, w, root, background);
      }
    case ToOpen(w, x, y) => FlatOpen(s, md, w, x, y, root, background);
    case ToClose(w) => if Plain(root, background, w) { FlatClose(s, md, w, root, background); }
    case ToMove(w, x, y) => if Plain(root, background, w) { FlatMove(s, md, w, x, y, root, background); }
    case ToTop(w) => FlatEnds(s, md, w, root, background);
    case ToBottom(w) => FlatEnds(s, md, w, root, background);
    case ToDelete(w) => if Plain(root, background, w) { FlatDelete(a, w, root, background); }
    case ToPlot(w, x, y, paint) => if w in s.place { SameFlat(s, md, w, paint, BoxAt(s.place[w].area, x, y, 1, 1), s.place[w].area, root); }
    case ToBox(w, x, y, width, height, paint) =>
      if w in s.place { SameFlat(s, md, w, paint, BoxAt(s.place[w].area, x, y, width, height), s.place[w].area, root); }
    case ToDecorate(w, r, paint) => if w in s.place { SameFlat(s, md, w, paint, r, Whole(s.place[w]), root); }
    case ToCopy(v, x0, y0, width, height, w, x1, y1) => SameCopy(s, v, x0, y0, width, height, w, x1, y1, root);
    case ToFind(x, y, useCache) => SameFind(a, Pixel(x, y), useCache, root);
    case ToRefresh => SameRefresh(s, md, root, background);
  }

  lemma {:induction false} SameFlat(s: State, maxDepth: nat, w: Window, paint: Paint, r: Rect, clip: Rect, root: Window)
    ensures var b := DoDraw(s, root, w, paint, r, clip); b.tree == s.tree && b.place == s.place
  {
    hide Drawn, RootDrawn;
  }

  lemma {:induction false} SameCopy(s: State, v: Window, x0: int, y0: int, width: int, height: int, w: Window, x1: int, y1: int, root: Window)
    ensures var b := DoCopy(s, root, v, x0, y0, width, height, w, x1, y1); b.tree == s.tree && b.place == s.place
  {
    hide Drawn, RootDrawn, CopyColours, CopyBox;
  }

  lemma {:induction false} SameFind(a: World, p: Pixel, useCache: bool, root: Window)
    ensures var b := DoFind(a, root, p, useCache); b.s.tree == a.s.tree && b.s.place == a.s.place
  {
    hide Finding.Reordered, IndexAt, Find, Shape;
  }

  lemma {:induction false} SameRefresh(s: State, maxDepth: nat, root: Window, background: Window)
    requires Fine(s, root, background, maxDepth)
    ensures var b := DoRefresh(s, root, maxDepth); b.tree == s.tree && b.place == s.place
  {
    hide Fine, Fold, Pre, AllCoherent, UpToDate, Sound;
    RedrawAllKeeps(s, root, background, maxDepth);
  }

  lemma {:induction false} FlatCreate(a: World, parent: Window, place: Place, b: World, w: Window, root: Window, background: Window)
    requires Fine(a.s, root, background, a.maxDepth) && Flat(a.s.tree, a.s.place, background)
    requires a.s.Domains() && parent in a.s.tree && a.s.place[parent].work == a.s.place[parent].pos && Creates(a, parent, place, b, w)
    ensures Flat(b.s.tree, b.s.place, background)
  {
    hide Fine, Flat, Created;
    FineParts(a.s, root, background, a.maxDepth);
    CreatedIs(a.s, parent, w, place, (p: Pixel) => 0);
    FlatPlanted(a.s.tree, a.maxDepth, root, a.s.place, parent, w, place, background);
  }

  lemma {:induction false} FlatOpen(s: State, maxDepth: nat, w: Window, x: int, y: int, root: Window, background: Window)
    requires Fine(s, root, background, maxDepth) && Flat(s.tree, s.place, background)
    ensures var b := DoOpen(s, root, maxDepth, w, x, y); Flat(b.tree, b.place, background)
  {
    hide Fine, Flat, Usable, OpenResult, AllCoherent, Opened;
    if Usable(s, root, maxDepth, w) {
      UsableTree(s, root, maxDepth, w);
      if !s.place[w].isOpen {
        OpenKeeps(s, root, background, maxDepth, w, x, y);
        FlatOpened(s.tree, s.place, w, x, y, background);
      }
    }
  }

  lemma {:induction false} FlatClose(s: State, maxDepth: nat, w: Window, root: Window, background: Window)
    requires Fine(s, root, background, maxDepth) && Flat(s.tree, s.place, background) && Plain(root, background, w)
    ensures var b := DoClose(s, root, maxDepth, w); Flat(b.tree, b.place, background)
  {
    hide Fine, Flat, Usable, CloseResult, AllCoherent, AllOpen, StaleBorder;
    if Usable(s, root, maxDepth, w) && AllOpen(s.tree, s.place, w) {
      UsableTree(s, root, maxDepth, w);
      CloseKeeps(s, root, background, maxDepth, w);
      FlatClosed(s.tree, s.place, w, background);
    }
  }

  lemma {:induction false} FlatMove(s: State, maxDepth: nat, w: Window, x: int, y: int, root: Window, background: Window)
    requires Fine(s, root, background, maxDepth) && Flat(s.tree, s.place, background) && Plain(root, background, w)
    ensures var b := DoMove(s, root, maxDepth, w, x, y); Flat(b.tree, b.place, background)
  {
    hide Fine, Flat, Usable, MoveResult, AllCoherent, MovedTo, FreeMove, StaleMove;
    if Moves(s, root, maxDepth, w, x, y) {
      UsableTree(s, root, maxDepth, w);
      var dx, dy := x - s.place[w].pos.x0, y - s.place[w].pos.y0;
      MoveKeeps(s, root, background, maxDepth, w, dx, dy, FreeMove(s.tree, s.place, MovedTo(s.tree, s.place, w, dx, dy), w));
      FlatMoved(s.tree, s.place, w, dx, dy, background);
    }
  }

  lemma {:induction false} FlatStack(s: State, maxDepth: nat, w: Window, w2: Window, onTop: bool, root: Window, background: Window)
    requires Fine(s, root, background, maxDepth) && Flat(s.tree, s.place, background)
    ensures var b := DoStack(s, root, maxDepth, w, w2, onTop); Flat(b.tree, b.place, background)
  {
    hide Fine, Flat, Usable, RestackResult, Restacked, PassageOf, Level, Passage.Order, AllCoherent;
    if Siblings(s, root, maxDepth, w, w2) {
      UsableTree(s, root, maxDepth, w);
      var kids := s.tree[s.tree[w].parent].kids;
      var d := PassageOf(kids, w, w2, onTop);
      KidsAt(s.tree, maxDepth, s.tree[w].parent);
      PassageIs(kids, w, w2, onTop);
      MakePasses(s, root, maxDepth, w, d);
      RestackKeeps(s, root, background, maxDepth, w, d);
      RestackedPlaces(s, w, d);
      var b := DoStack(s, root, maxDepth, w, w2, onTop);
      if b != s {
        FineParts(b, root, background, maxDepth);
        forall x | x in s.tree ensures b.tree[x].parent == s.tree[x].parent { ParentsKept(s, w, d, x); }
        FlatKept(s.tree, s.place, b.tree, b.place, background);
      }
    }
  }

  lemma {:induction false} FlatEnds(s: State, maxDepth: nat, w: Window, root: Window, background: Window)
    requires Fine(s, root, background, maxDepth) && Flat(s.tree, s.place, background)
    ensures var b := DoTop(s, root, maxDepth, w); Flat(b.tree, b.place, background)
    ensures var b := DoBottom(s, root, maxDepth, w); Flat(b.tree, b.place, background)
  {
    hide Fine, Flat, Usable, DoStack;
    if Usable(s, root, maxDepth, w) {
      UsableTree(s, root, maxDepth, w);
      var kids := s.tree[s.tree[w].parent].kids;
      if kids != [] {
        FlatStack(s, maxDepth, w, kids[0], true, root, background);
        FlatStack(s, maxDepth, w, kids[|kids| - 1], false, root, background);
      }
    }
  }

  lemma {:induction false} FlatDelete(a: World, w: Window, root: Window, background: Window)
    requires Fine(a.s, root, background, a.maxDepth) && Flat(a.s.tree, a.s.place, background) && Plain(root, background, w)
    ensures var b := Deletion(a, root, w); Flat(b.s.tree, b.s.place, background)
  {
    hide Fine, Flat, Usable, CloseResult, DeleteResult, AllCoherent, AllOpen, StaleBorder, WithoutSubtree;
    var s, maxDepth := a.s, a.maxDepth;
    if Usable(s, root, maxDepth, w) {
      UsableTree(s, root, maxDepth, w);
      CloseFrame(s, root, maxDepth, w);
      DeleteTheorem(s, root, background, maxDepth, w);
      DeleteIs(s, root, maxDepth, w);
      var b := DeleteResult(s, root, maxDepth, w);
      FineParts(b, root, background, maxDepth);
      var s1 := if AllOpen(s.tree, s.place, w) then CloseResult(s, root, maxDepth, w) else s;
      if AllOpen(s.tree, s.place, w) {
        CloseKeeps(s, root, background, maxDepth, w);
        FlatClosed(s.tree, s.place, w, background);
      }
      FlatWithout(s1.tree, s1.place, w, b.place, background);
    }
  }

  /** So the backing store stays coherent on every run of such requests. */
  lemma {:induction false} FlatRun(trace: seq<World>, requests: seq<Request>, root: Window, background: Window, n: nat)
    requires IsRun(trace, requests, root, background) && n < |trace| && Fine(trace[0].s, root, background, trace[0].maxDepth)
    requires trace[0].s.Domains() && AllCoherent(trace[0].s) && Flat(trace[0].s.tree, trace[0].s.place, background)
    requires forall i :: 0 <= i < n ==> Modest(trace[i].s, requests[i], root)
    ensures Unspoiled(trace, requests, n, root, background)
    ensures trace[n].s.Domains() && AllCoherent(trace[n].s) && Flat(trace[n].s.tree, trace[n].s.place, background)
  {
    hide Fine, Flat, Modest, AllCoherent, Step, Spoils;
    if n > 0 {
      FlatRun(trace, requests, root, background, n - 1);
      RunSafe(trace, requests, root, background, n - 1);
      ModestSafe(trace[n - 1], requests[n - 1], root, background);
      FlatStep(trace[n - 1], requests[n - 1], trace[n], root, background);
      RunCoherent(trace, requests, root, background, n);
    }
  }
}
