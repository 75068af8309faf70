/** What each request does, said without the functions that model the operations: in terms of
    sibling lists, coordinates, pixels of the contents and of the screen, and the cache. */
module Effects {
  import opened Geometry
  import opened WindowTree
  import opened Orders
  import opened Visibility
  import opened Changes
  import opened Steps
  import opened Linking
  import opened Restacking
  import opened Visitors
  import opened Backing
  import opened Coherence
  import opened Opening
  import opened Closing
  import opened Moving
  import opened Reordering
  import opened Drawing
  import opened Finding
  import opened Rooted
  import opened Lifecycle
  import opened Runs

  // ----- The tree -----

  /** `w` is a new, topmost child of `parent`; nothing else has changed. */
  ghost predicate FirstChild(t: Tree, t': Tree, parent: Window, w: Window) {
    && parent in t && w !in t && t'.Keys == t.Keys + {w}
    && t'[w].parent == parent && t'[w].kids == [] && LeftOf(t', w) == [] && RightOf(t', w) == t[parent].kids
    && t'[parent].kids == [w] + t[parent].kids
    && forall x :: x in t ==> t'[x].parent == t[x].parent && (x != parent ==> t'[x].kids == t[x].kids)
  }

  /** `w` has another place among its siblings, whose order is the same; nothing else has changed. */
  ghost predicate Reorders(t: Tree, t': Tree, w: Window) {
    && t'.Keys == t.Keys && w in t && t[w].parent != null && t[w].parent in t
    && t'[t[w].parent].kids == LeftOf(t', w) + [w] + RightOf(t', w)
    && LeftOf(t', w) + RightOf(t', w) == LeftOf(t, w) + RightOf(t, w)
    && forall x :: x in t ==> t'[x].parent == t[x].parent && (x != t[w].parent ==> t'[x].kids == t[x].kids)
  }

  /** `w` and all windows below it are gone; nothing else has changed. */
  ghost predicate Removes(t: Tree, t': Tree, w: Window) {
    && w in t && t'.Keys <= t.Keys && (forall x :: x in t ==> (x in t' <==> !Above(t, w, x)))
    && forall x :: x in t' ==> t'[x].parent == t[x].parent
                               && t'[x].kids == if x == t[w].parent then LeftOf(t, w) + RightOf(t, w) else t[x].kids
  }

  /** The siblings to the left and to the right are what surrounds `w` in the list of children. */
  lemma {:induction false} SiblingsAre(t: Tree, maxDepth: nat, root: Window, w: Window, left: seq<Window>, right: seq<Window>)
    requires TreeOK(t, root, maxDepth) && w in t && w != root
    requires t[w].parent != null && t[w].parent in t && t[t[w].parent].kids == left + [w] + right
    ensures LeftOf(t, w) == left && RightOf(t, w) == right
  {
    hide Shape, Before, After;
    ParentAt(t, maxDepth, root, w);
    TreeParts(t, root, maxDepth);
    KidsAt(t, maxDepth, t[w].parent);
    SplitOf(left, w, right);
  }

  lemma {:induction false} SiblingsAround(t: Tree, maxDepth: nat, root: Window, w: Window)
    requires TreeOK(t, root, maxDepth) && w in t && w != root
    ensures t[w].parent != null && t[w].parent in t && t[t[w].parent].kids == LeftOf(t, w) + [w] + RightOf(t, w)
    ensures Dropped(t[t[w].parent].kids, w) == LeftOf(t, w) + RightOf(t, w) && Distinct(t[t[w].parent].kids)
  {
    hide Shape, Before, After;
    ParentAt(t, maxDepth, root, w);
    TreeParts(t, root, maxDepth);
    KidsAt(t, maxDepth, t[w].parent);
    SplitAround(t[t[w].parent].kids, w);
  }

  lemma {:induction false} PlantedFirst(t: Tree, maxDepth: nat, root: Window, parent: Window, w: Window)
    requires parent in t && w !in t && TreeOK(Planted(t, parent, w), root, maxDepth) && w != root
    ensures FirstChild(t, Planted(t, parent, w), parent, w)
  {
    hide TreeOK, LeftOf, RightOf, Before, After;
    var t' := Planted(t, parent, w);
    assert t'[parent].kids == [] + [w] + t[parent].kids;
    SiblingsAre(t', maxDepth, root, w, [], t[parent].kids);
  }

  /** Relinking with a new order that drops and inserts `w`. */
  lemma {:induction false} RelinkedReorders(t: Tree, maxDepth: nat, root: Window, w: Window, left: seq<Window>, right: seq<Window>)
    requires TreeOK(t, root, maxDepth) && w in t && w != root && t[w].parent != null && t[w].parent in t
    requires left + right == Dropped(t[t[w].parent].kids, w)
    requires TreeOK(Relinked(t, t[w].parent, left + [w] + right), root, maxDepth)
    ensures var t' := Relinked(t, t[w].parent, left + [w] + right);
            Reorders(t, t', w) && LeftOf(t', w) == left && RightOf(t', w) == right
  {
    hide TreeOK, LeftOf, RightOf, Before, After, Dropped;
    var t' := Relinked(t, t[w].parent, left + [w] + right);
    assert w in t' && t'[w].parent == t[w].parent;
    SiblingsAre(t', maxDepth, root, w, left, right);
    SiblingsAround(t, maxDepth, root, w);
  }

  lemma {:induction false} WithoutRemoves(t: Tree, maxDepth: nat, root: Window, w: Window)
    requires TreeOK(t, root, maxDepth) && w in t && w != root
    ensures t[w].parent != null && t[w].parent in t && Removes(t, WithoutSubtree(t, w), w)
  {
    hide TreeOK, Above, LeftOf, RightOf, Dropped;
    SiblingsAround(t, maxDepth, root, w);
  }

  // ----- Places -----

  /** The window has been shifted. */
  ghost predicate Shifted(a: Place, a': Place, dx: int, dy: int) {
    && a'.pos == Rect(a.pos.x0 + dx, a.pos.y0 + dy, a.pos.w, a.pos.h) && a'.area == a.area
    && a'.work == Rect(a.work.x0 + dx, a.work.y0 + dy, a.work.w, a.work.h)
  }

  /** `w` is open, with its upper left corner at (x, y); the open windows below it have moved along. */
  ghost predicate PutAt(s: State, s': State, w: Window, x: int, y: int) {
    && s'.tree == s.tree && s'.content == s.content && s'.place.Keys == s.place.Keys && w in s.place
    && s'.place[w].isOpen && s'.place[w].pos.x0 == x && s'.place[w].pos.y0 == y
    && forall v :: v in s.place ==>
         if v == w || (Above(s.tree, w, v) && s.place[v].isOpen)
         then Shifted(s.place[v], s'.place[v], x - s.place[w].pos.x0, y - s.place[w].pos.y0) && s'.place[v].isOpen
         else s'.place[v] == s.place[v]
  }

  lemma {:induction false} OpenedPuts(t: Tree, pl: Places, w: Window, x: int, y: int, s: State, s': State)
    requires s.tree == s'.tree == t && s.content == s'.content && s.place == pl && w in pl && s'.place == Opened(t, pl, w, x, y)
    ensures PutAt(s, s', w, x, y)
  {
    hide Above;
  }

  lemma {:induction false} MovedPuts(t: Tree, pl: Places, w: Window, x: int, y: int, s: State, s': State)
    requires s.tree == s'.tree == t && s.content == s'.content && s.place == pl && w in pl && pl[w].isOpen && Above(t, w, w)
    requires s'.place == MovedTo(t, pl, w, x - pl[w].pos.x0, y - pl[w].pos.y0)
    ensures PutAt(s, s', w, x, y)
  {
    hide Above;
  }

  /** `w` and all windows above it are open. */
  ghost predicate Mapped(t: Tree, pl: Places, w: Window) {
    forall v :: v in t && Above(t, v, w) ==> v in pl && pl[v].isOpen
  }

  lemma {:induction false} AllOpenMapped(t: Tree, pl: Places, maxDepth: nat, root: Window, w: Window)
    requires TreeOK(t, root, maxDepth) && t.Keys == pl.Keys && w in t
    ensures AllOpen(t, pl, w) <==> Mapped(t, pl, w)
    decreases t[w].depth
  {
    hide TreeOK;
    AboveSelf(t, w);
    if w == root {
      TreeParts(t, root, maxDepth);
    } else {
      ParentAt(t, maxDepth, root, w);
      AllOpenMapped(t, pl, maxDepth, root, t[w].parent);
      assert forall v :: Above(t, v, w) <==> v == w || Above(t, v, t[w].parent);
    }
  }

  /** `w` alone is closed. */
  ghost predicate Unmaps(s: State, s': State, w: Window) {
    && s'.tree == s.tree && s'.content == s.content && s'.place.Keys == s.place.Keys && w in s.place
    && !s'.place[w].isOpen && s'.place[w].pos == s.place[w].pos && s'.place[w].work == s.place[w].work && s'.place[w].area == s.place[w].area
    && forall v :: v in s.place && v != w ==> s'.place[v] == s.place[v]
  }

  // ----- Pixels -----

  /** The pixels for which `inside` holds have been painted, no others. */
  ghost predicate Colours(after: Picture, before: Picture, paint: Paint, inside: Pixel -> bool) {
    forall p :: after(p) == if inside(p) then paint(p, before(p)) else before(p)
  }

  /** Drawing changes the content of the window alone; drawing into the root changes the screen. */
  ghost predicate Draws(s: State, s': State, root: Window, w: Window, paint: Paint, inside: Pixel -> bool) {
    && s'.tree == s.tree && s'.place == s.place && s'.shown == s.shown && s'.content.Keys == s.content.Keys && w in s.content
    && (forall x :: x in s.content && x != w ==> s'.content[x] == s.content[x])
    && if w == root then s'.content == s.content && Colours(s'.screen, s.screen, paint, inside)
       else Colours(s'.content[w], s.content[w], paint, inside)
  }

  /** The offset `i` lies between `from` and `from + size`; the size may be negative. */
  predicate InSpan(from: int, size: int, i: int) {
    from <= i < from + size || from + size <= i < from
  }

  /** The pixel (x, y) of the working area. */
  predicate AtPlot(area: Rect, x: int, y: int, p: Pixel) {
    area.Has(p) && p.x - area.x0 == x && p.y - area.y0 == y
  }

  /** A box, relative to the working area. */
  predicate InBox(area: Rect, x: int, y: int, width: int, height: int, p: Pixel) {
    area.Has(p) && InSpan(x, width, p.x - area.x0) && InSpan(y, height, p.y - area.y0)
  }

  lemma {:induction false} PaintedColours(pic: Picture, paint: Paint, r: Rect, clip: Rect, inside: Pixel -> bool)
    requires forall p :: inside(p) <==> r.Has(p) && clip.Has(p)
    ensures Colours(Painted(pic, paint, r, clip, 0, 0), pic, paint, inside)
  {
    hide Painted;
    forall p ensures Painted(pic, paint, r, clip, 0, 0)(p) == if inside(p) then paint(p, pic(p)) else pic(p) {
      PaintedAt(pic, paint, r, clip, 0, 0, p);
      assert p.Plus(0, 0) == p;
    }
  }

  lemma {:induction false} DrawDraws(s: State, root: Window, w: Window, paint: Paint, r: Rect, clip: Rect, inside: Pixel -> bool)
    requires s.Domains() && w in s.tree && forall p :: inside(p) <==> r.Has(p) && clip.Has(p)
    ensures Draws(s, DoDraw(s, root, w, paint, r, clip), root, w, paint, inside)
  {
    hide Painted, DirtyWith, Colours;
    PaintedColours(s.screen, paint, r, clip, inside);
    PaintedColours(s.content[w], paint, r, clip, inside);
  }

  lemma {:induction false} PlotIsBox(area: Rect, x: int, y: int, p: Pixel)
    ensures AtPlot(area, x, y, p) <==> BoxAt(area, x, y, 1, 1).Has(p) && area.Has(p)
  {
  }

  lemma {:induction false} BoxIsBox(area: Rect, x: int, y: int, width: int, height: int, p: Pixel)
    ensures InBox(area, x, y, width, height, p) <==> BoxAt(area, x, y, width, height).Has(p) && area.Has(p)
  {
  }

  lemma {:induction false} PlotDraws(s: State, root: Window, w: Window, x: int, y: int, paint: Paint)
    requires s.Domains() && w in s.tree
    ensures var area := s.place[w].area;
            Draws(s, DoDraw(s, root, w, paint, BoxAt(area, x, y, 1, 1), area), root, w, paint, p => AtPlot(area, x, y, p))
  {
    hide DoDraw, BoxAt, Draws, AtPlot;
    var area := s.place[w].area;
    forall p ensures AtPlot(area, x, y, p) <==> BoxAt(area, x, y, 1, 1).Has(p) && area.Has(p) { PlotIsBox(area, x, y, p); }
    DrawDraws(s, root, w, paint, BoxAt(area, x, y, 1, 1), area, p => AtPlot(area, x, y, p));
  }

  lemma {:induction false} BoxDraws(s: State, root: Window, w: Window, x: int, y: int, width: int, height: int, paint: Paint)
    requires s.Domains() && w in s.tree
    ensures var area := s.place[w].area;
            Draws(s, DoDraw(s, root, w, paint, BoxAt(area, x, y, width, height), area), root, w, paint, p => InBox(area, x, y, width, height, p))
  {
    hide DoDraw, BoxAt, Draws, InBox;
    var area := s.place[w].area;
    forall p ensures InBox(area, x, y, width, height, p) <==> BoxAt(area, x, y, width, height).Has(p) && area.Has(p) {
      BoxIsBox(area, x, y, width, height, p);
    }
    DrawDraws(s, root, w, paint, BoxAt(area, x, y, width, height), area, p => InBox(area, x, y, width, height, p));
  }

  /** Somewhere in the window. */
  predicate InWindow(place: Place, r: Rect, p: Pixel) {
    r.Has(p) && 0 <= p.x < place.pos.w && 0 <= p.y < place.pos.h
  }

  lemma {:induction false} DecorateDraws(s: State, root: Window, w: Window, r: Rect, paint: Paint)
    requires s.Domains() && w in s.tree
    ensures var place := s.place[w];
            Draws(s, DoDraw(s, root, w, paint, r, Whole(place)), root, w, paint, p => InWindow(place, r, p))
  {
    hide DoDraw, Draws;
    var place := s.place[w];
    DrawDraws(s, root, w, paint, r, Whole(place), p => InWindow(place, r, p));
  }

  // ----- Copies -----

  /** Pixel (x1 + i, y1 + j) of the area `to` comes from pixel (x0 + i, y0 + j) of the area
      `from`, as far as both exist and lie in the box to copy. */
  ghost predicate Transfers(after: Picture, before: Picture, source: Picture, from: Rect, x0: int, y0: int, width: int, height: int, to: Rect, x1: int, y1: int) {
    forall p :: after(p) == TransferAt(before, source, from, x0, y0, width, height, to, x1, y1, p)
  }

  ghost function TransferAt(before: Picture, source: Picture, from: Rect, x0: int, y0: int, width: int, height: int, to: Rect, x1: int, y1: int, p: Pixel): Color {
    var i, j := p.x - to.x0 - x1, p.y - to.y0 - y1;
    var q := Pixel(from.x0 + x0 + i, from.y0 + y0 + j);
    if 0 <= i < width && 0 <= j < height && to.Has(p) && from.Has(q) then source(q) else before(p)
  }

  /** A copy from `v` to `w`: the root stands for the screen, other windows for their content. */
  ghost predicate Copies(s: State, s': State, root: Window, v: Window, x0: int, y0: int, width: int, height: int, w: Window, x1: int, y1: int) {
    && s'.tree == s.tree && s'.place == s.place && s'.shown == s.shown && s'.content.Keys == s.content.Keys
    && v in s.place && w in s.place && v in s.content && w in s.content
    && (forall x :: x in s.content && x != w ==> s'.content[x] == s.content[x])
    && var from, to := s.place[v].area, s.place[w].area;
       if w == root then
         && s'.content == s.content
         && (v == root ==> Transfers(s'.screen, s.screen, s.screen, from, x0, y0, width, height, to, x1, y1))
         && (v != root ==> Transfers(s'.screen, s.screen, s.content[v], from, x0, y0, width, height, to, x1, y1))
       else
         && (v == root ==> Transfers(s'.content[w], s.content[w], s.screen, from, x0, y0, width, height, to, x1, y1))
         && (v != root ==> Transfers(s'.content[w], s.content[w], s.content[v], from, x0, y0, width, height, to, x1, y1))
  }

  lemma {:induction false} PaintTransfers(before: Picture, read: Picture, source: Picture, from: Rect, x0: int, y0: int, width: int, height: int, to: Rect, x1: int, y1: int)
    requires forall q :: from.Has(q) ==> read(q) == source(q)
    ensures var paint := CopyPaint(read, from, to.x0 + x1 - from.x0 - x0, to.y0 + y1 - from.y0 - y0);
            Transfers(Painted(before, paint, Rect(to.x0 + x1, to.y0 + y1, width, height), to, 0, 0), before, source, from, x0, y0, width, height, to, x1, y1)
  {
    hide Painted, CopyPaint;
    var dx, dy := to.x0 + x1 - from.x0 - x0, to.y0 + y1 - from.y0 - y0;
    var paint := CopyPaint(read, from, dx, dy);
    var r := Rect(to.x0 + x1, to.y0 + y1, width, height);
    forall p ensures Painted(before, paint, r, to, 0, 0)(p) == TransferAt(before, source, from, x0, y0, width, height, to, x1, y1, p) {
      PaintedAt(before, paint, r, to, 0, 0, p);
      assert p.Plus(0, 0) == p;
      CopyPaintAt(read, from, dx, dy, p, before(p));
      assert p.Plus(-dx, -dy) == Pixel(from.x0 + x0 + (p.x - to.x0 - x1), from.y0 + y0 + (p.y - to.y0 - y1));
    }
  }

  lemma {:induction false} SourceAgrees(s: State, root: Window, maxDepth: nat, v: Window, q: Pixel)
    requires Sound(s, root, maxDepth) && RootBare(s, root) && v in s.tree && (v == root || Coherent(s, v)) && s.place[v].area.Has(q)
    ensures Source(s, root, v)(q) == if v == root then s.screen(q) else s.content[v](q)
  {
    hide TreeOK, Shape, AllShownOK, Coherent;
    assert PlaceOK(s.place[v]);
    if v != root { SourceIsContent(s, root, maxDepth, v, q); }
  }

  /** Every copy whose source is the root or a coherent window. */
  lemma {:induction false} CopyTransfers(s: State, root: Window, background: Window, maxDepth: nat, v: Window, x0: int, y0: int, width: int, height: int, w: Window, x1: int, y1: int)
    requires Fine(s, root, background, maxDepth) && s.Domains() && v in s.tree && w in s.tree && (v == root || Coherent(s, v))
    ensures Copies(s, DoCopy(s, root, v, x0, y0, width, height, w, x1, y1), root, v, x0, y0, width, height, w, x1, y1)
  {
    hide Fine, Coherent, Source, CopyPaint, Painted, Transfers, DirtyWith, Sound, RootBare, DoCopy, DoDraw, RootCovered;
    FineParts(s, root, background, maxDepth);
    CopyIs(s, root, v, x0, y0, width, height, w, x1, y1);
    var from, to, read := s.place[v].area, s.place[w].area, Source(s, root, v);
    forall q | from.Has(q) ensures if v == root then read(q) == s.screen(q) else read(q) == s.content[v](q) {
      SourceAgrees(s, root, maxDepth, v, q);
    }
    if v == root {
      PaintTransfers(s.screen, read, s.screen, from, x0, y0, width, height, to, x1, y1);
      PaintTransfers(s.content[w], read, s.screen, from, x0, y0, width, height, to, x1, y1);
    } else {
      PaintTransfers(s.screen, read, s.content[v], from, x0, y0, width, height, to, x1, y1);
      PaintTransfers(s.content[w], read, s.content[v], from, x0, y0, width, height, to, x1, y1);
    }
    DrawnPictures(s, root, w, CopyPaint(read, from, to.x0 + x1 - from.x0 - x0, to.y0 + y1 - from.y0 - y0),
                  Rect(to.x0 + x1, to.y0 + y1, width, height), to);
  }

  /** The pictures that a drawing changes. */
  lemma {:induction false} DrawnPictures(s: State, root: Window, w: Window, paint: Paint, r: Rect, clip: Rect)
    requires s.Domains() && w in s.tree
    ensures var s' := DoDraw(s, root, w, paint, r, clip);
            && s'.tree == s.tree && s'.place == s.place && s'.shown == s.shown && s'.content.Keys == s.content.Keys && w in s.content
            && (forall x :: x in s.content && x != w ==> s'.content[x] == s.content[x])
            && (w == root ==> s'.content == s.content && s'.screen == Painted(s.screen, paint, r, clip, 0, 0))
            && (w != root ==> s'.content[w] == Painted(s.content[w], paint, r, clip, 0, 0))
  {
    hide Painted, DirtyWith;
  }

  // ----- Restacking -----

  /** `w` lies just above or just below `w2`. */
  ghost predicate NextTo(t: Tree, w: Window, w2: Window, onTop: bool) {
    w in t && if onTop then RightOf(t, w) != [] && RightOf(t, w)[0] == w2
    else LeftOf(t, w) != [] && LeftOf(t, w)[|LeftOf(t, w)| - 1] == w2
  }

  /** Only the order of the siblings changes, and what is visible. */
  ghost predicate Restacks(s: State, s': State, w: Window) {
    Reorders(s.tree, s'.tree, w) && s'.place == s.place && s'.content == s.content
  }

  lemma {:induction false} StackedTree(s: State, root: Window, background: Window, maxDepth: nat, w: Window, w2: Window, onTop: bool)
    requires Fine(s, root, background, maxDepth) && Siblings(s, root, maxDepth, w, w2)
    ensures s.tree[w].parent != null && s.tree[w].parent in s.tree
    ensures var s' := DoStack(s, root, maxDepth, w, w2, onTop);
            && s'.tree == Relinked(s.tree, s.tree[w].parent, NewOrder(s.tree[s.tree[w].parent].kids, w, w2, onTop))
            && s'.place == s.place && s'.content == s.content && Fine(s', root, background, maxDepth)
  {
    hide Fine, Usable, AllCoherent, RestackResult, Restacked, PassageOf, Level, Passage.Order, NewOrder, Relinked;
    UsableTree(s, root, maxDepth, w);
    var kids := s.tree[s.tree[w].parent].kids;
    var d := PassageOf(kids, w, w2, onTop);
    KidsAt(s.tree, maxDepth, s.tree[w].parent);
    PassageIs(kids, w, w2, onTop);
    MakePasses(s, root, maxDepth, w, d);
    RestackKeeps(s, root, background, maxDepth, w, d);
    RestackedPlaces(s, w, d);
    IsRelinked(s, w, d);
    AlreadyThere(kids, w, w2, onTop);
    RelinkedSame(s.tree, maxDepth, s.tree[w].parent);
  }

  lemma {:induction false} NewOrderAround(kids: seq<Window>, w: Window, w2: Window, onTop: bool) returns (left: seq<Window>, right: seq<Window>)
    requires Distinct(kids) && w in kids && w2 in kids && w != w2
    ensures NewOrder(kids, w, w2, onTop) == left + [w] + right && left + right == Dropped(kids, w)
    ensures if onTop then right != [] && right[0] == w2 else left != [] && left[|left| - 1] == w2
  {
    hide Dropped, Before, After, Distinct;
    var rest := Dropped(kids, w);
    WithoutMember(kids, w, w2);
    SplitAround(rest, w2);
    if onTop {
      left, right := Before(rest, w2), [w2] + After(rest, w2);
    } else {
      left, right := Before(rest, w2) + [w2], After(rest, w2);
    }
  }

  lemma {:induction false} StackRestacks(s: State, root: Window, background: Window, maxDepth: nat, w: Window, w2: Window, onTop: bool)
    requires Fine(s, root, background, maxDepth) && Siblings(s, root, maxDepth, w, w2)
    ensures var s' := DoStack(s, root, maxDepth, w, w2, onTop);
            Restacks(s, s', w) && w in s'.tree && NextTo(s'.tree, w, w2, onTop)
  {
    hide *;
    SiblingParts(s, root, maxDepth, w, w2);
    UsableTree(s, root, maxDepth, w);
    StackedTree(s, root, background, maxDepth, w, w2, onTop);
    KidsAt(s.tree, maxDepth, s.tree[w].parent);
    var kids := s.tree[s.tree[w].parent].kids;
    var left, right := NewOrderAround(kids, w, w2, onTop);
    FineParts(DoStack(s, root, maxDepth, w, w2, onTop), root, background, maxDepth);
    RelinkedReorders(s.tree, maxDepth, root, w, left, right);
    MakeRestacks(s, DoStack(s, root, maxDepth, w, w2, onTop), w, w2, onTop);
  }

  lemma {:induction false} SiblingParts(s: State, root: Window, maxDepth: nat, w: Window, w2: Window)
    requires Siblings(s, root, maxDepth, w, w2)
    ensures Usable(s, root, maxDepth, w) && w in s.tree && s.tree[w].parent != null && s.tree[w].parent in s.tree && w != w2
    ensures w in s.tree[s.tree[w].parent].kids && w2 in s.tree[s.tree[w].parent].kids
  {
    hide Sound;
  }

  lemma {:induction false} MakeRestacks(s: State, s': State, w: Window, w2: Window, onTop: bool)
    requires Reorders(s.tree, s'.tree, w) && s'.place == s.place && s'.content == s.content && w in s'.tree
    requires if onTop then RightOf(s'.tree, w) != [] && RightOf(s'.tree, w)[0] == w2
             else LeftOf(s'.tree, w) != [] && LeftOf(s'.tree, w)[|LeftOf(s'.tree, w)| - 1] == w2
    ensures Restacks(s, s', w) && NextTo(s'.tree, w, w2, onTop)
  {
    hide Reorders, LeftOf, RightOf;
  }

  /** Above all its siblings, or below. */
  lemma {:induction false} EndsRestack(s: State, root: Window, background: Window, maxDepth: nat, w: Window)
    requires Fine(s, root, background, maxDepth) && w in s.tree && w != root
    ensures var s' := DoTop(s, root, maxDepth, w); Restacks(s, s', w) && w in s'.tree && LeftOf(s'.tree, w) == []
    ensures var s' := DoBottom(s, root, maxDepth, w); Restacks(s, s', w) && w in s'.tree && RightOf(s'.tree, w) == []
  {
    hide Fine, Usable, DoStack, TreeOK, LeftOf, RightOf, Reorders, Dropped;
    FineParts(s, root, background, maxDepth);
    FineUsable(s, root, background, maxDepth, w);
    UsableTree(s, root, maxDepth, w);
    SiblingsAround(s.tree, maxDepth, root, w);
    DoEndsAre(s, root, maxDepth, w);
    var kids, left, right := s.tree[s.tree[w].parent].kids, LeftOf(s.tree, w), RightOf(s.tree, w);
    KidsAt(s.tree, maxDepth, s.tree[w].parent);
    SameRestacks(s, root, background, maxDepth, w);
    assert kids[|left|] == w && w in kids && kids[0] in kids && kids[|kids| - 1] in kids;
    if left != [] {
      StackRestacks(s, root, background, maxDepth, w, kids[0], true);
      ReordersParts(s.tree, DoTop(s, root, maxDepth, w).tree, w);
      FirstOfBoth(LeftOf(DoTop(s, root, maxDepth, w).tree, w), RightOf(DoTop(s, root, maxDepth, w).tree, w), left, right, w, kids);
    }
    if right != [] {
      StackRestacks(s, root, background, maxDepth, w, kids[|kids| - 1], false);
      ReordersParts(s.tree, DoBottom(s, root, maxDepth, w).tree, w);
      LastOfBoth(LeftOf(DoBottom(s, root, maxDepth, w).tree, w), RightOf(DoBottom(s, root, maxDepth, w).tree, w), left, right, w, kids);
    }
  }

  lemma {:induction false} ReordersParts(t: Tree, t': Tree, w: Window)
    requires Reorders(t, t', w)
    ensures w in t && w in t' && LeftOf(t', w) + RightOf(t', w) == LeftOf(t, w) + RightOf(t, w)
  {
    hide LeftOf, RightOf;
  }

  lemma {:induction false} SameRestacks(s: State, root: Window, background: Window, maxDepth: nat, w: Window)
    requires Fine(s, root, background, maxDepth) && w in s.tree && w != root
    ensures Restacks(s, s, w)
  {
    hide Fine, LeftOf, RightOf, Dropped, TreeOK;
    FineParts(s, root, background, maxDepth);
    SiblingsAround(s.tree, maxDepth, root, w);
  }

  lemma {:induction false} FirstOfBoth(l: seq<Window>, r: seq<Window>, left: seq<Window>, right: seq<Window>, w: Window, kids: seq<Window>)
    requires l + r == left + right && left != [] && r != [] && kids == left + [w] + right && Distinct(kids) && r[0] == kids[0]
    ensures l == []
  {
    var n := |l|;
    assert (l + r)[n] == r[0];
    assert (left + right)[n] == kids[if n < |left| then n else n + 1];
  }

  lemma {:induction false} LastOfBoth(l: seq<Window>, r: seq<Window>, left: seq<Window>, right: seq<Window>, w: Window, kids: seq<Window>)
    requires l + r == left + right && right != [] && l != [] && kids == left + [w] + right && Distinct(kids) && l[|l| - 1] == kids[|kids| - 1]
    ensures r == []
  {
    var n := |l| - 1;
    assert (l + r)[n] == l[n];
    assert (left + right)[n] == kids[if n < |left| then n else n + 1];
  }

  // ----- Searching and refreshing -----

  /** The first rectangle that holds the point goes to the front. */
  ghost predicate Fronted(before: seq<Rect>, after: seq<Rect>, p: Pixel) {
    exists i :: 0 <= i < |before| && before[i].Has(p) && (forall j :: 0 <= j < i ==> !before[j].Has(p))
                && after == [before[i]] + before[..i] + before[i + 1..]
  }

  /** The cached window is open and shows the point. */
  ghost predicate Cached(a: World, p: Pixel) {
    && a.cache != null && a.cache in a.s.place && a.cache in a.s.shown && a.s.place[a.cache].isOpen && Covers(a.s.shown[a.cache].recs, p)
  }

  /** A search changes the order of one list, or the cache: it then names the window that owns
      the pixel, if any does. */
  ghost predicate Seeks(a: World, b: World, p: Pixel) {
    if Cached(a, p) then
      && b == a.(s := a.s.(shown := b.s.shown)) && b.s.shown.Keys == a.s.shown.Keys
      && (forall x :: x in a.s.shown && x != a.cache ==> b.s.shown[x] == a.s.shown[x])
      && b.s.shown[a.cache].hidden == a.s.shown[a.cache].hidden
      && Fronted(a.s.shown[a.cache].recs, b.s.shown[a.cache].recs, p)
    else
      && b == a.(cache := b.cache)
      && (b.cache != null ==> b.cache in a.s.tree && Vis(a.s.tree, a.s.place, b.cache, p))
      && (b.cache == null ==> forall x :: x in a.s.tree ==> !Vis(a.s.tree, a.s.place, x, p))
  }

  lemma {:induction false} IndexFronts(recs: seq<Rect>, p: Pixel)
    ensures Covers(recs, p) <==> IndexAt(recs, p) < |recs|
    ensures IndexAt(recs, p) < |recs| ==> Fronted(recs, ToFront(recs, IndexAt(recs, p)), p)
  {
    FirstIndexAt(recs, p);
    var i := IndexAt(recs, p);
    if i < |recs| { assert recs[i].Has(p); }
  }

  lemma {:induction false} FirstIndexAt(recs: seq<Rect>, p: Pixel)
    ensures forall j :: 0 <= j < IndexAt(recs, p) ==> !recs[j].Has(p)
  {
    if recs != [] && !recs[0].Has(p) {
      FirstIndexAt(recs[1..], p);
      forall j | 0 <= j < IndexAt(recs, p) ensures !recs[j].Has(p) { if j > 0 { assert recs[1..][j - 1] == recs[j]; } }
    }
  }

  lemma {:induction false} FindSeeks(a: World, root: Window, background: Window, p: Pixel)
    requires Fine(a.s, root, background, a.maxDepth) && CacheOK(a)
    ensures Seeks(a, DoFind(a, root, p, true), p)
  {
    hide Fine, Fronted, IndexAt, Find, Vis, ToFront, Shape;
    FineParts(a.s, root, background, a.maxDepth);
    if a.cache != null && a.cache in a.s.shown { IndexFronts(a.s.shown[a.cache].recs, p); }
    if !Cached(a, p) { FindOwns(a.s, root, background, a.maxDepth, p); }
  }

  lemma {:induction false} FindOwns(s: State, root: Window, background: Window, maxDepth: nat, p: Pixel)
    requires Fine(s, root, background, maxDepth)
    ensures Shape(s.tree, maxDepth) && root in s.tree && s.Domains()
    ensures var w := Find(s.tree, maxDepth, s.place, root, p);
            && (w != null ==> w in s.tree && Vis(s.tree, s.place, w, p))
            && (w == null ==> forall x :: x in s.tree ==> !Vis(s.tree, s.place, x, p))
  {
    hide Fine, Vis, Find, Shape;
    FineParts(s, root, background, maxDepth);
    FindIn(s, root, background, maxDepth, p);
    SoundPlaces(s, root, maxDepth);
    forall x | x in s.tree ensures Vis(s.tree, s.place, x, p) <==> Find(s.tree, maxDepth, s.place, root, p) == x {
      VisibleIffFound(s.tree, maxDepth, s.place, root, x, p);
    }
  }

  lemma {:induction false} SoundPlaces(s: State, root: Window, maxDepth: nat)
    requires Sound(s, root, maxDepth)
    ensures PlacesOK(s.tree, s.place) && TreeOK(s.tree, root, maxDepth)
  {
  }

  /** After a refresh nothing waits to be redrawn; if the windows were coherent, every pixel of
      every rectangle is that of its window. */
  ghost predicate Refreshes(s: State, s': State) {
    && s.Domains() && s'.Domains()
    && s'.tree == s.tree && s'.place == s.place && s'.shown == s.shown && s'.content == s.content
    && (forall x :: x in s'.tree ==> s'.store[x].dirty.w == 0)
    && (AllCoherent(s) ==> forall x, p :: x in s'.tree && Covers(s'.shown[x].recs, p) ==> s'.screen(p) == ContentAt(s', x, p))
  }

  lemma {:induction false} FoldCleans(s: State, list: seq<Window>)
    requires s.Domains() && forall x :: x in list ==> x in s.tree
    ensures var s' := Fold(s, RedrawIfDirty, list);
            && s'.Domains() && s'.tree == s.tree && s'.place == s.place && s'.shown == s.shown && s'.content == s.content
            && forall x :: x in list ==> s'.store[x].dirty.w == 0
    decreases |list|
  {
    hide Fold, Redraw;
    if list == [] {
      FoldNothing(s, RedrawIfDirty);
    } else {
      var n := |list| - 1;
      assert list == list[..n] + [list[n]];
      FoldCleans(s, list[..n]);
      FoldStep(s, RedrawIfDirty, list[..n], list[n]);
      var t := Fold(s, RedrawIfDirty, list[..n]);
      RedrawFrame(t, list[n], [DirtyOnScreen(t, list[n])]);
    }
  }

  lemma {:induction false} RefreshRefreshes(s: State, root: Window, background: Window, maxDepth: nat)
    requires Fine(s, root, background, maxDepth)
    ensures Refreshes(s, DoRefresh(s, root, maxDepth))
  {
    hide Fine, Fold, Pre, AllCoherent, Sound, UpToDate, Shape, TreeOK;
    FineParts(s, root, background, maxDepth);
    DoRefreshIs(s, root, maxDepth);
    var list := Pre(s.tree, maxDepth, {}, root);
    forall x | x in s.tree ensures x in list {
      RootAbove(s.tree, maxDepth, root, x);
      PreMembers(s.tree, maxDepth, root, x);
    }
    PreAbove(s.tree, maxDepth, {}, root);
    forall x | x in list ensures x in s.tree { AboveDepth(s.tree, root, x); }
    FoldCleans(s, list);
    if AllCoherent(s) {
      RedrawAllKeeps(s, root, background, maxDepth);
      CleanShows(DoRefresh(s, root, maxDepth), root, maxDepth);
    }
  }

  lemma {:induction false} CleanShows(s: State, root: Window, maxDepth: nat)
    requires Sound(s, root, maxDepth) && AllCoherent(s) && forall x :: x in s.tree ==> s.store[x].dirty.w == 0
    ensures forall x, p :: x in s.tree && Covers(s.shown[x].recs, p) ==> s.screen(p) == ContentAt(s, x, p)
  {
    hide TreeOK, Shape, PlacesOK, AllShownOK, Vis;
    forall x, p | x in s.tree && Covers(s.shown[x].recs, p) ensures s.screen(p) == ContentAt(s, x, p) {
      CoveredIsVisible(s, root, maxDepth, x, p);
      CoherentAt(s, x);
      VisibleOpen(s.tree, s.place, x, p);
      assert !DirtyOnScreen(s, x).Has(p);
    }
  }

  lemma {:induction false} VisibleOpen(t: Tree, pl: Places, w: Window, p: Pixel)
    requires Vis(t, pl, w, p)
    ensures w in pl && pl[w].isOpen
  {
  }

  // ----- The start -----

  /** Only the background is shown, as large as the screen, and the screen is as it was. */
  ghost predicate Starts(s: State, root: Window, background: Window, width: int, height: int, initial: Picture) {
    && s.Domains() && s.tree.Keys == {root, background} && s.tree[root].kids == [background] && s.tree[background].kids == []
    && s.tree[root].parent == null && s.tree[background].parent == root && s.screen == initial
    && s.place[root] == s.place[background] && s.place[root].isOpen
    && s.place[root].pos == s.place[root].work == s.place[root].area == Rect(0, 0, width, height)
    && s.shown[root].recs == [] && s.shown[background].recs == [Rect(0, 0, width, height)] && !s.shown[background].hidden
    && forall p: Pixel :: 0 <= p.x < width && 0 <= p.y < height ==> s.content[background](p) == initial(p)
  }

  lemma {:induction false} InitialStarts(root: Window, background: Window, width: int, height: int, initial: Picture, blank: Picture)
    requires root != background
    ensures var all := Rect(0, 0, width, height);
            Starts(Initial(root, background, all, initial, BitBlk(initial, all, blank, 0, 0)), root, background, width, height, initial)
  {
    var all := Rect(0, 0, width, height);
    forall p: Pixel | all.Has(p) ensures BitBlk(initial, all, blank, 0, 0)(p) == initial(p) { assert p.Plus(0, 0) == p; }
  }

  // ----- Requests -----

  /** window_create and createBitmap: a closed window at the origin, nothing drawn in it. */
  ghost predicate NewWindow(s: State, s': State, parent: Window, w: Window, width: int, height: int, border: bool, title: bool, titleHeight: int) {
    && s.Domains() && s'.Domains() && FirstChild(s.tree, s'.tree, parent, w) && s'.screen == s.screen
    && !s'.place[w].isOpen && s'.place[w].pos.x0 == s'.place[w].pos.y0 == 0
    && s'.place[w].area.w == width && s'.place[w].area.h == height && Margins(s'.place[w], border, title, titleHeight)
    && (forall p :: s'.content[w](p) == 0)
    && forall x :: x in s.tree ==> s'.place[x] == s.place[x] && s'.content[x] == s.content[x]
  }

  /** window_delete */
  ghost predicate Deletes(s: State, s': State, w: Window) {
    && s.Domains() && s'.Domains() && Removes(s.tree, s'.tree, w)
    && forall x :: x in s'.tree ==> x in s.tree && s'.place[x] == s.place[x] && s'.content[x] == s.content[x]
  }

  /** What a client observes of one request: the state before and after it. */
  ghost predicate Effect(a: World, q: Request, b: World, root: Window, background: Window) {
    a.s.Domains() && b.s.Domains() &&
    var s, s' := a.s, b.s;
    match q
    case ToCreate(parent, width, height, border, title, titleHeight) =>
      if parent in s.tree && 0 < width && 0 < height && 0 <= titleHeight then
        b.cache == a.cache && exists w :: w in s'.tree && NewWindow(s, s', parent, w, width, height, border, title, titleHeight)
      else b == a
    case ToOpen(w, x, y) =>
      if w in s.tree && !s.place[w].isOpen then b == a.(s := s') && PutAt(s, s', w, x, y) else b == a
    case ToClose(w) =>
      if w != root && w != background && w in s.tree && Mapped(s.tree, s.place, w) then b == a.(s := s') && Unmaps(s, s', w) else b == a
    case ToMove(w, x, y) =>
      if w != root && w != background && w in s.tree && s.place[w].isOpen && !(s.place[w].pos.x0 == x && s.place[w].pos.y0 == y)
      then b == a.(s := s') && PutAt(s, s', w, x, y) else b == a
    case ToTop(w) =>
      if w in s.tree && w != root then b == a.(s := s') && Restacks(s, s', w) && w in s'.tree && LeftOf(s'.tree, w) == [] else b == a
    case ToBottom(w) =>
      if w in s.tree && w != root then b == a.(s := s') && Restacks(s, s', w) && w in s'.tree && RightOf(s'.tree, w) == [] else b == a
    case ToDelete(w) =>
      if w != root && w != background && w in s.tree then
        b == a.(s := s', cache := b.cache) && Deletes(s, s', w) && b.cache == if a.cache != null && a.cache in s'.tree then a.cache else null
      else b == a
    case ToPlot(w, x, y, paint) =>
      if w in s.tree then b == a.(s := s') && Draws(s, s', root, w, paint, p => AtPlot(s.place[w].area, x, y, p)) else b == a
    case ToBox(w, x, y, width, height, paint) =>
      if w in s.tree then b == a.(s := s') && Draws(s, s', root, w, paint, p => InBox(s.place[w].area, x, y, width, height, p)) else b == a
    case ToDecorate(w, r, paint) =>
      if w in s.tree && w != root then b == a.(s := s') && Draws(s, s', root, w, paint, p => InWindow(s.place[w], r, p)) else b == a
    case ToCopy(v, x0, y0, width, height, w, x1, y1) =>
      if v in s.tree && w in s.tree then
        b == a.(s := s') && (v == root || Coherent(s, v) ==> Copies(s, s', root, v, x0, y0, width, height, w, x1, y1))
      else b == a
    case ToFind(x, y, useCache) => if useCache then Seeks(a, b, Pixel(x, y)) else b == a
    case ToRefresh => b == a.(s := s') && Refreshes(s, s')
  }

  lemma {:induction false} CreateNew(a: World, parent: Window, width: int, height: int, border: bool, title: bool, titleHeight: int, b: World, w: Window, root: Window, background: Window)
    requires Fine(a.s, root, background, a.maxDepth) && a.s.Domains() && parent in a.s.tree && 0 < width && 0 < height && 0 <= titleHeight
    requires Creates(a, parent, NewPlace(width, height, border, title, titleHeight), b, w)
    ensures b.s.Domains() && w in b.s.tree && NewWindow(a.s, b.s, parent, w, width, height, border, title, titleHeight) && b.cache == a.cache
  {
    hide Fine, Planted, AllCoherent, FirstChild, Margins, NewPlace;
    var place := NewPlace(width, height, border, title, titleHeight);
    FineParts(a.s, root, background, a.maxDepth);
    CreateReady(a.s, root, background, a.maxDepth, parent, w, place, (p: Pixel) => 0);
    PlantedKeys(a.s.tree, parent, w);
    PlantedFirst(a.s.tree, b.maxDepth, root, parent, w);
  }

  lemma {:induction false} OpenPuts(s: State, root: Window, background: Window, maxDepth: nat, w: Window, x: int, y: int)
    requires Fine(s, root, background, maxDepth) && w in s.tree && w in s.place && !s.place[w].isOpen
    ensures PutAt(s, DoOpen(s, root, maxDepth, w, x, y), w, x, y)
  {
    hide *;
    RootIsOpen(s, root, background, maxDepth);
    FineUsable(s, root, background, maxDepth, w);
    UsableTree(s, root, maxDepth, w);
    DoOpenIs(s, root, maxDepth, w, x, y);
    OpenKeeps(s, root, background, maxDepth, w, x, y);
    OpenedPuts(s.tree, s.place, w, x, y, s, DoOpen(s, root, maxDepth, w, x, y));
  }

  lemma {:induction false} RootIsOpen(s: State, root: Window, background: Window, maxDepth: nat)
    requires Fine(s, root, background, maxDepth)
    ensures root in s.place && s.place[root].isOpen
  {
  }

  lemma {:induction false} ClosedSame(s: State, root: Window, background: Window, maxDepth: nat, w: Window, x: int, y: int)
    requires Fine(s, root, background, maxDepth) && (w !in s.tree || (w in s.place && s.place[w].isOpen))
    ensures DoOpen(s, root, maxDepth, w, x, y) == s
  {
    hide Sound, OpenResult;
  }

  lemma {:induction false} CloseUnmaps(s: State, root: Window, background: Window, maxDepth: nat, w: Window)
    requires Fine(s, root, background, maxDepth) && Plain(root, background, w)
    ensures w in s.tree && Mapped(s.tree, s.place, w) ==> Unmaps(s, DoClose(s, root, maxDepth, w), w)
    ensures !(w in s.tree && Mapped(s.tree, s.place, w)) ==> DoClose(s, root, maxDepth, w) == s
  {
    hide Fine, Usable, AllOpen, Mapped, CloseResult, AllCoherent, StaleBorder, Coherent, TreeOK, Shape;
    FineParts(s, root, background, maxDepth);
    if w in s.tree {
      FineUsable(s, root, background, maxDepth, w);
      UsableTree(s, root, maxDepth, w);
      AllOpenMapped(s.tree, s.place, maxDepth, root, w);
      if AllOpen(s.tree, s.place, w) { CloseKeeps(s, root, background, maxDepth, w); }
    } else {
      Unknown(s, root, maxDepth, w);
    }
  }

  lemma {:induction false} MovePuts(s: State, root: Window, background: Window, maxDepth: nat, w: Window, x: int, y: int)
    requires Fine(s, root, background, maxDepth) && Plain(root, background, w)
    ensures w in s.tree && w in s.place && s.place[w].isOpen && !(s.place[w].pos.x0 == x && s.place[w].pos.y0 == y) ==>
              PutAt(s, DoMove(s, root, maxDepth, w, x, y), w, x, y)
    ensures !(w in s.tree && w in s.place && s.place[w].isOpen && !(s.place[w].pos.x0 == x && s.place[w].pos.y0 == y)) ==>
              DoMove(s, root, maxDepth, w, x, y) == s
  {
    hide Fine, DoMove, PutAt;
    FineParts(s, root, background, maxDepth);
    if w in s.tree {
      DoMoveIs(s, root, maxDepth, w, x, y);
      if s.place[w].isOpen && !(s.place[w].pos.x0 == x && s.place[w].pos.y0 == y) { OpenMovePuts(s, root, background, maxDepth, w, x, y); }
    } else {
      Unknown(s, root, maxDepth, w);
    }
  }

  lemma {:induction false} OpenMovePuts(s: State, root: Window, background: Window, maxDepth: nat, w: Window, x: int, y: int)
    requires Fine(s, root, background, maxDepth) && Plain(root, background, w) && w in s.tree && w in s.place && s.place[w].isOpen
    requires !(x == s.place[w].pos.x0 && y == s.place[w].pos.y0)
    ensures PutAt(s, DoMove(s, root, maxDepth, w, x, y), w, x, y)
  {
    hide *;
    PlainParts(root, background, w);
    FineUsable(s, root, background, maxDepth, w);
    UsableTree(s, root, maxDepth, w);
    AboveSelf(s.tree, w);
    var dx, dy := x - s.place[w].pos.x0, y - s.place[w].pos.y0;
    DoMoveIs(s, root, maxDepth, w, x, y);
    MoveKeeps(s, root, background, maxDepth, w, dx, dy, FreeMove(s.tree, s.place, MovedTo(s.tree, s.place, w, dx, dy), w));
    MovedPuts(s.tree, s.place, w, x, y, s, DoMove(s, root, maxDepth, w, x, y));
  }

  lemma {:induction false} PlainParts(root: Window, background: Window, w: Window)
    requires Plain(root, background, w)
    ensures w != root && w != background
  {
  }

  lemma {:induction false} DeleteDeletes(a: World, root: Window, background: Window, w: Window)
    requires Fine(a.s, root, background, a.maxDepth) && CacheOK(a) && Plain(root, background, w)
    ensures w in a.s.tree ==> Deletes(a.s, Deletion(a, root, w).s, w)
    ensures w !in a.s.tree ==> Deletion(a, root, w) == a
  {
    hide Fine, DoDelete, WithoutSubtree, TreeOK, Removes;
    FineParts(a.s, root, background, a.maxDepth);
    if w in a.s.tree {
      DeletedAll(a.s, root, background, a.maxDepth, w);
      WithoutRemoves(a.s.tree, a.maxDepth, root, w);
    } else {
      Unknown(a.s, root, a.maxDepth, w);
    }
  }

  /** What window_delete leaves of the other windows. */
  lemma {:induction false} DeletedAll(s: State, root: Window, background: Window, maxDepth: nat, w: Window)
    requires Fine(s, root, background, maxDepth) && w in s.tree && Plain(root, background, w)
    ensures s.Domains() && s.tree[w].parent != null && s.tree[w].parent in s.tree
    ensures var s' := DoDelete(s, root, maxDepth, w);
            && s'.Domains() && s'.tree == WithoutSubtree(s.tree, w) && Fine(s', root, background, maxDepth)
            && forall x :: x in s'.tree ==> x in s.tree && x != w && s'.place[x] == s.place[x] && s'.content[x] == s.content[x]
  {
    hide Fine, Usable, AllCoherent, CloseResult, AllOpen, StaleBorder, WithoutSubtree, TreeOK;
    FineParts(s, root, background, maxDepth);
    FineUsable(s, root, background, maxDepth, w);
    UsableTree(s, root, maxDepth, w);
    CloseFrame(s, root, maxDepth, w);
    DeleteTheorem(s, root, background, maxDepth, w);
    NotInWithout(s.tree, w);
    if AllOpen(s.tree, s.place, w) { CloseKeeps(s, root, background, maxDepth, w); }
  }

  lemma {:induction false} NotInWithout(t: Tree, w: Window)
    requires w in t && t[w].parent != null && t[w].parent in t
    ensures w !in WithoutSubtree(t, w) && forall x :: x in WithoutSubtree(t, w) ==> x in t
  {
    assert Above(t, w, w);
  }

  /** Every step has the effect that its request asks for. */
  lemma {:induction false} EffectTheorem(a: World, q: Request, b: World, root: Window, background: Window)
    requires Fine(a.s, root, background, a.maxDepth) && CacheOK(a) && Step(a, q, b, root, background)
    ensures Effect(a, q, b, root, background)
  {
    hide Fine, CacheOK, DoOpen, DoClose, DoMove, DoTop, DoBottom, DoDelete, DoDraw, DoRefresh, DoCopy, DoFind, Deletion, Creates, NewPlace, BoxAt, Whole,
         NewWindow, PutAt, Unmaps, Mapped, Restacks, Deletes, Draws, Copies, Seeks, Refreshes, AtPlot, InBox, InWindow, Coherent, LeftOf, RightOf;
    var s, md := a.s, a.maxDepth;
    FineParts(s, root, background, md);
    EffectDomains(a, q, b, root, background);
    match q
    case ToCreate(parent, width, height, border, title, titleHeight) =>
      if parent in s.tree && 0 < width && 0 < height && 0 <= titleHeight {
        var w :| w in b.s.tree && Creates(a, parent, NewPlace(width, height, border, title, titleHeight), b, w);
        CreateNew(a, parent, width, height, border, title, titleHeight, b, w, root, background);
      }
    case ToOpen(w, x, y) =>
      if w in s.tree && !s.place[w].isOpen { OpenPuts(s, root, background, md, w, x, y); } else { ClosedSame(s, root, background, md, w, x, y); }
    case ToClose(w) => if Plain(root, background, w) { CloseUnmaps(s, root, background, md, w); }
    case ToMove(w, x, y) => if Plain(root, background, w) { MovePuts(s, root, background, md, w, x, y); }
    case ToTop(w) => EndsEffect(s, root, background, md, w);
    case ToBottom(w) => EndsEffect(s, root, background, md, w);
    case ToDelete(w) =>
      if Plain(root, background, w) {
        DeleteDeletes(a, root, background, w);
        DeletionIs(a, root, w);
        RememberedIs(a.cache, b.s.tree);
      }
    case ToPlot(w, x, y, paint) => if w in s.tree { PlotDraws(s, root, w, x, y, paint); }
    case ToBox(w, x, y, width, height, paint) => if w in s.tree { BoxDraws(s, root, w, x, y, width, height, paint); }
    case ToDecorate(w, r, paint) => if w in s.tree { DecorateDraws(s, root, w, r, paint); }
    case ToCopy(v, x0, y0, width, height, w, x1, y1) =>
      if v in s.tree && w in s.tree && (v == root || Coherent(s, v)) { CopyTransfers(s, root, background, md, v, x0, y0, width, height, w, x1, y1); }
    case ToFind(x, y, useCache) =>
      DoFindIs(a, root, Pixel(x, y), useCache);
      FindSeeks(a, root, background, Pixel(x, y));
    case ToRefresh => RefreshRefreshes(s, root, background, md);
  }

  lemma {:induction false} EffectDomains(a: World, q: Request, b: World, root: Window, background: Window)
    requires Fine(a.s, root, background, a.maxDepth) && Step(a, q, b, root, background)
    ensures a.s.Domains() && b.s.Domains() && a.s.tree.Keys == a.s.place.Keys
  {
    hide Fine, Step, Spoils;
    FineParts(a.s, root, background, a.maxDepth);
    StepTheorem(a, q, b, root, background);
    FineParts(b.s, root, background, b.maxDepth);
  }

  lemma {:induction false} EndsEffect(s: State, root: Window, background: Window, maxDepth: nat, w: Window)
    requires Fine(s, root, background, maxDepth)
    ensures if w in s.tree && w != root then
              var top, bottom := DoTop(s, root, maxDepth, w), DoBottom(s, root, maxDepth, w);
              && Restacks(s, top, w) && w in top.tree && LeftOf(top.tree, w) == []
              && Restacks(s, bottom, w) && w in bottom.tree && RightOf(bottom.tree, w) == []
            else DoTop(s, root, maxDepth, w) == s && DoBottom(s, root, maxDepth, w) == s
  {
    hide Fine, DoTop, DoBottom, Restacks, LeftOf, RightOf;
    FineParts(s, root, background, maxDepth);
    if w !in s.tree {
      Unknown(s, root, maxDepth, w);
    } else if w == root {
      DoEndsAre(s, root, maxDepth, w);
    } else {
      EndsRestack(s, root, background, maxDepth, w);
    }
  }

  /** So does every request of a run. */
  lemma {:induction false} RunEffects(trace: seq<World>, requests: seq<Request>, root: Window, background: Window)
    requires IsRun(trace, requests, root, background) && Fine(trace[0].s, root, background, trace[0].maxDepth) && CacheOK(trace[0])
    ensures |trace| == |requests| + 1
    ensures forall i :: 0 <= i < |requests| ==> Effect(trace[i], requests[i], trace[i + 1], root, background)
  {
    hide Fine, CacheOK, Step, Effect;
    forall i | 0 <= i < |requests| ensures Effect(trace[i], requests[i], trace[i + 1], root, background) {
      RunSafe(trace, requests, root, background, i);
      EffectTheorem(trace[i], requests[i], trace[i + 1], root, background);
    }
  }
}
