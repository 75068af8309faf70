/** The functions that the traversals call for every window, as functions from one state of
    the window system to the next.  The C code passes them as function pointers; here they
    are the constructors of a datatype. */
module Visitors {
  import opened Geometry
  import opened WindowTree
  import opened Visibility
  import opened VisibleRects
  import opened Changes
  import opened Steps

  /** Backing store of a window: its bitmap, is_dirty, and the rectangle `dirty`, all in
      window coordinates. */
  datatype Store = Store(bitmap: Picture, isDirty: bool, dirty: Rect)

  /** The window system: the tree, the fields of the windows, the screen, and for every
      window what has been drawn into it, wherever those pixels are kept at the moment. */
  datatype State = State(tree: Tree, place: Places, shown: map<Window, Shown>, store: map<Window, Store>,
                         content: map<Window, Picture>, screen: Picture) {
    ghost predicate Domains() {
      tree.Keys == place.Keys == shown.Keys == store.Keys == content.Keys
    }
  }

  // ----- Copying pixels -----

  /** bitblk: copy the rectangle `r` of `src` to position (x1, y1) of `dst`. */
  function BitBlk(src: Picture, r: Rect, dst: Picture, x1: int, y1: int): Picture {
    (p: Pixel) => if Rect(x1, y1, r.w, r.h).Has(p) then src(p.Plus(r.x0 - x1, r.y0 - y1)) else dst(p)
  }

  /** real_window_save: from the screen to the bitmap of a window at `pos`. */
  function SaveRect(screen: Picture, bitmap: Picture, pos: Rect, r: Rect): Picture {
    BitBlk(screen, r, bitmap, r.x0 - pos.x0, r.y0 - pos.y0)
  }

  /** real_window_redraw: from the bitmap to the screen. */
  function RedrawRect(screen: Picture, bitmap: Picture, pos: Rect, r: Rect): Picture {
    BitBlk(bitmap, r.Shift(-pos.x0, -pos.y0), screen, r.x0, r.y0)
  }

  function SaveRecs(screen: Picture, bitmap: Picture, pos: Rect, recs: seq<Rect>): Picture {
    if recs == [] then bitmap
    else SaveRect(screen, SaveRecs(screen, bitmap, pos, recs[..|recs| - 1]), pos, recs[|recs| - 1])
  }

  /** Redraw the parts of `recs` that lie in `r`. */
  function RedrawRecs(screen: Picture, bitmap: Picture, pos: Rect, recs: seq<Rect>, r: Rect): Picture {
    if recs == [] then screen
    else
      var before := RedrawRecs(screen, bitmap, pos, recs[..|recs| - 1], r);
      var last := recs[|recs| - 1];
      if Intersects(last, r) then RedrawRect(before, bitmap, pos, Common(last, r)) else before
  }

  function RedrawList(screen: Picture, bitmap: Picture, pos: Rect, recs: seq<Rect>, rs: seq<Rect>): Picture {
    if rs == [] then screen
    else RedrawRecs(RedrawList(screen, bitmap, pos, recs, rs[..|rs| - 1]), bitmap, pos, recs, rs[|rs| - 1])
  }

  // ----- The visitors -----

  datatype Visitor =
    | SaveContents(r: Rect)               // window_save_contents
    | MoveOne(dx: int, dy: int)           // window_move_one
    | MoveRecs(dx: int, dy: int)          // window_move_recs
    | RebuildRecs(rs: seq<Rect>)          // window_rebuild_recs
    | RedrawContents(rs: seq<Rect>)       // window_redraw_contents_rect
    | RedrawIfDirty                       // redrawIfDirty
    | CloseOne(top: Window)               // window_close_one

  ghost function Save(s: State, w: Window, r: Rect): (s': State)
    requires s.Domains() && w in s.tree
    ensures s'.Domains() && s' == s.(store := s'.store)
  {
    var n := s.store[w];
    if !s.place[w].isOpen || !n.isDirty || s.shown[w].hidden then
      s.(store := s.store[w := n.(isDirty := false)])
    else if Intersects(s.place[w].pos, r) then
      s.(store := s.store[w := n.(isDirty := false, bitmap := SaveRecs(s.screen, n.bitmap, s.place[w].pos, s.shown[w].recs))])
    else s
  }

  /** The window has become visible as a whole while its bitmap was ahead of the screen. */
  ghost predicate MustFlush(s: State, w: Window)
    requires s.Domains() && w in s.tree
  {
    !s.shown[w].hidden && s.store[w].dirty.w > 0 && s.store[w].dirty.h > 0
  }

  /** The dirty rectangle in screen coordinates. */
  ghost function DirtyOnScreen(s: State, w: Window): Rect
    requires s.Domains() && w in s.tree
  {
    s.store[w].dirty.Shift(s.place[w].pos.x0, s.place[w].pos.y0)
  }

  ghost function Flush(s: State, w: Window): (s': State)
    requires s.Domains() && w in s.tree
    ensures s'.Domains() && s'.tree == s.tree && s'.content == s.content
  {
    if MustFlush(s, w) then
      s.(screen := RedrawRecs(s.screen, s.store[w].bitmap, s.place[w].pos, s.shown[w].recs, DirtyOnScreen(s, w)),
         store := s.store[w := s.store[w].(dirty := s.store[w].dirty.(w := 0, h := 0))])
    else s
  }

  ghost function Redraw(s: State, w: Window, rs: seq<Rect>): (s': State)
    requires s.Domains() && w in s.tree
    ensures s'.Domains() && s'.tree == s.tree && s'.content == s.content
  {
    if !s.place[w].isOpen then s
    else
      var f := Flush(s, w);
      f.(screen := RedrawList(f.screen, f.store[w].bitmap, f.place[w].pos, f.shown[w].recs, rs))
  }

  ghost function RedrawDirty(s: State, w: Window): (s': State)
    requires s.Domains() && w in s.tree
    ensures s'.Domains() && s'.tree == s.tree && s'.content == s.content
  {
    if s.store[w].dirty.w == 0 then s
    else
      var d := Redraw(s, w, [DirtyOnScreen(s, w)]);
      d.(store := d.store[w := d.store[w].(dirty := d.store[w].dirty.(w := 0))])
  }

  /** Drop the rectangles; the window being closed loses is_open, the ones below it become hidden. */
  ghost function Closed(s: State, w: Window, top: Window): (s': State)
    requires s.Domains() && w in s.tree
    ensures s'.Domains() && s'.tree == s.tree && s'.content == s.content
  {
    if w == top then
      s.(place := s.place[w := s.place[w].(isOpen := false)], shown := s.shown[w := s.shown[w].(recs := [])])
    else s.(shown := s.shown[w := Shown([], true)])
  }

  ghost function Close(s: State, w: Window, top: Window): (s': State)
    requires s.Domains() && w in s.tree
    ensures s'.Domains() && s'.tree == s.tree && s'.content == s.content
  {
    if !AllOpen(s.tree, s.place, w) then s
    else
      Closed(Save(s, w, s.place[w].pos), w, top)
  }

  ghost function Apply(s: State, v: Visitor, w: Window): (s': State)
    ensures s'.tree == s.tree && s'.content == s.content && (s.Domains() ==> s'.Domains())
  {
    if s.Domains() && w in s.tree then Visited(s, v, w) else s
  }

  /** What the visitor's function does to the window `w`. */
  ghost function Visited(s: State, v: Visitor, w: Window): (s': State)
    requires s.Domains() && w in s.tree
    ensures s'.Domains() && s'.tree == s.tree && s'.content == s.content
  {
    match v
    case SaveContents(r) => Save(s, w, r)
    case MoveOne(dx, dy) => if s.place[w].isOpen then s.(place := s.place[w := Moved(s.place[w], dx, dy)]) else s
    case MoveRecs(dx, dy) =>
      if s.place[w].isOpen then s.(shown := s.shown[w := s.shown[w].(recs := ShiftRecs(s.shown[w].recs, dx, dy))]) else s
    case RebuildRecs(rs) =>
      if Hit(s.place, rs, w) then s.(shown := s.shown[w := Build(s.tree, s.place, w)]) else s
    case RedrawContents(rs) => Redraw(s, w, rs)
    case RedrawIfDirty => RedrawDirty(s, w)
    case CloseOne(top) => Close(s, w, top)
  }

  /** The windows for which the visitor returns a positive value. */
  ghost function Turns(s: State, v: Visitor): set<Window> {
    if v.RebuildRecs? then Cut(s.place, v.rs) else {}
  }

  lemma {:induction false} NoTurns(s: State, v: Visitor)
    requires !v.RebuildRecs?
    ensures Turns(s, v) == {}
  {
  }

  /** Visit the windows of the list one after the other. */
  ghost function Fold(s: State, v: Visitor, list: seq<Window>): (s': State)
    ensures s'.tree == s.tree && s'.content == s.content && (s.Domains() ==> s'.Domains())
  {
    if list == [] then s
    else Apply(Fold(s, v, list[..|list| - 1]), v, list[|list| - 1])
  }

  lemma {:induction false} FoldNothing(s: State, v: Visitor)
    ensures Fold(s, v, []) == s
  {
  }

  lemma {:induction false} FoldStep(s: State, v: Visitor, a: seq<Window>, w: Window)
    ensures Fold(s, v, a + [w]) == Apply(Fold(s, v, a), v, w)
  {
    assert (a + [w])[..|a + [w]| - 1] == a;
  }

  lemma {:induction false} LastOff<T>(a: seq<T>, b: seq<T>)
    requires b != []
    ensures a + b == (a + b[..|b| - 1]) + [b[|b| - 1]]
  {
  }

  lemma {:induction false} FoldConcat(s: State, v: Visitor, a: seq<Window>, b: seq<Window>)
    ensures Fold(s, v, a + b) == Fold(Fold(s, v, a), v, b)
    decreases |b|
  {
    if b == [] {
      assert a + b == a;
    } else {
      var init, w := b[..|b| - 1], b[|b| - 1];
      FoldConcat(s, v, a, init);
      LastOff(a, b);
      FoldStep(s, v, a + init, w);
    }
  }

  lemma {:induction false} FoldFirst(s: State, v: Visitor, w: Window, rest: seq<Window>)
    ensures Fold(s, v, [w] + rest) == Fold(Apply(s, v, w), v, rest)
  {
    FoldConcat(s, v, [w], rest);
    FoldStep(s, v, [], w);
    assert [] + [w] == [w];
  }

  /** The root is never drawn: its save and redraw functions are null pointers.  That is
      safe because it has no visible rectangle and counts as hidden. */
  ghost predicate RootBare(s: State, root: Window) {
    s.Domains() && root in s.tree && s.shown[root] == Shown([], true)
  }

  ghost predicate NullSafe(s: State, root: Window, v: Visitor) {
    RootBare(s, root) && (v.RebuildRecs? && s.place[root].isOpen ==> Build(s.tree, s.place, root) == Shown([], true))
  }

  /** A visit changes the fields of the visited window only. */
  lemma {:induction false} VisitedElsewhere(s: State, v: Visitor, w: Window, x: Window)
    requires s.Domains() && w in s.tree && x in s.tree && x != w
    ensures var s' := Visited(s, v, w);
            s'.shown[x] == s.shown[x] && s'.place[x] == s.place[x] && s'.store[x] == s.store[x]
  {
    hide Build, AllOpen, SaveRecs, RedrawRecs, RedrawList, ShiftRecs, Hit, MustFlush;
    match v
    case CloseOne(top) =>
    case SaveContents(r) =>
    case _ =>
  }

  lemma {:induction false} ApplyElsewhere(s: State, v: Visitor, w: Window, x: Window)
    requires s.Domains() && x in s.tree && x != w
    ensures var s' := Apply(s, v, w);
            s'.shown[x] == s.shown[x] && s'.place[x] == s.place[x] && s'.store[x] == s.store[x]
  {
    hide Visited;
    if w in s.tree { VisitedElsewhere(s, v, w, x); }
  }

  lemma {:induction false} ApplyToRoot(s: State, root: Window, v: Visitor)
    requires NullSafe(s, root, v)
    ensures Apply(s, v, root).shown[root] == Shown([], true)
  {
    match v
    case MoveRecs(dx, dy) => assert ShiftRecs([], dx, dy) == [];
    case _ =>
  }

  /** One visit keeps the turning points and the safety of the root. */
  lemma {:induction false} VisitKeeps(s: State, root: Window, v: Visitor, w: Window)
    requires NullSafe(s, root, v)
    ensures NullSafe(Apply(s, v, w), root, v) && Turns(Apply(s, v, w), v) == Turns(s, v)
    ensures v.RebuildRecs? ==> Apply(s, v, w).place == s.place
  {
    hide Build, AllOpen, SaveRecs, RedrawRecs, RedrawList, ShiftRecs, MustFlush;
    if w == root {
      ApplyToRoot(s, root, v);
    } else {
      ApplyElsewhere(s, v, w, root);
    }
  }

  lemma {:induction false} FoldKeeps(s: State, root: Window, v: Visitor, list: seq<Window>)
    requires NullSafe(s, root, v)
    ensures NullSafe(Fold(s, v, list), root, v) && Turns(Fold(s, v, list), v) == Turns(s, v)
    decreases |list|
  {
    if list != [] {
      var n := |list| - 1;
      FoldKeeps(s, root, v, list[..n]);
      VisitKeeps(Fold(s, v, list[..n]), root, v, list[n]);
    }
  }

  lemma {:induction false} NullSafeBare(s: State, root: Window, v: Visitor)
    ensures NullSafe(s, root, v) ==> RootBare(s, root)
    ensures RootBare(s, root) && !v.RebuildRecs? ==> NullSafe(s, root, v)
    ensures v.RebuildRecs? && RootBare(s, root) && root in s.place && Build(s.tree, s.place, root) == Shown([], true) ==> NullSafe(s, root, v)
  {
  }

}
