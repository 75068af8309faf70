/** Each operation of the window manager, seen as a change of tree and places followed by a
    partial rebuild: the invariant of every window is restored. */
module Steps {
  import opened Geometry
  import opened WindowTree
  import opened Orders
  import opened Visibility
  import opened VisibleRects
  import opened Changes

  /** Only windows of the list can have `w` on top of them in a way that matters. */
  ghost predicate OnlyAffects(t0: Tree, pl0: Places, t1: Tree, pl1: Places, w: Window, affected: seq<Window>)
    requires t0.Keys == t1.Keys && w in pl0 && w in pl1
  {
    forall a :: a in t0 && !Above(t0, w, a) && a !in affected ==>
      forall p :: CoveredBy(t0, pl0, w, a, p) <==> CoveredBy(t1, pl1, w, a, p)
  }

  /** The visited windows include the pruned preorder of `a`'s subtree. */
  ghost predicate Visits(t: Tree, maxDepth: nat, pl: Places, rs: seq<Rect>, a: Window, visited: seq<Window>)
    requires Shape(t, maxDepth) && a in t
  {
    forall y :: y in Pre(t, maxDepth, Cut(pl, rs), a) ==> y in visited
  }

  /** Outside the subtree of `w`, rebuilding the affected siblings' subtrees and the parent
      restores the invariant. */
  lemma {:induction false} OutsideRestored(t0: Tree, maxDepth: nat, pl0: Places, t1: Tree, pl1: Places, w: Window, rs: seq<Rect>,
                        affected: seq<Window>, visited: seq<Window>, sh0: map<Window, Shown>, sh1: map<Window, Shown>, x: Window)
    requires Shape(t0, maxDepth) && Shape(t1, maxDepth) && PlacesOK(t0, pl0) && PlacesOK(t1, pl1)
    requires OnlyDiffersAt(t0, pl0, t1, pl1, w) && Bounds(pl0, pl1, w, rs) && OnlyAffects(t0, pl0, t1, pl1, w, affected)
    requires forall a :: a in affected ==> a in t1 && !Above(t0, w, a) && Visits(t1, maxDepth, pl1, rs, a, visited)
    requires t0[w].parent in visited || forall p :: (pl0[w].isOpen && pl0[w].pos.Has(p)) <==> (pl1[w].isOpen && pl1[w].pos.Has(p))
    requires AllShownOK(t0, pl0, sh0) && Rebuilt(t1, pl1, rs, visited, sh0, sh1)
    requires x in t0 && !Above(t0, w, x)
    ensures ShownOK(t1, pl1, x, sh1[x])
  {
    assert pl0[x] == pl1[x];
    if x in visited && Hit(pl1, rs, x) {
      BuildMeaning(t1, pl1, x);
    } else {
      forall p ensures Vis(t0, pl0, x, p) <==> Vis(t1, pl1, x, p) {
        if pl1[x].isOpen {
          if a :| a in affected && Above(t1, a, x) {
            AboveSame(t0, t1, a, x);
            var b := Skipped(t1, maxDepth, pl1, rs, a, x);
            AboveSame(t0, t1, b, x);
            VisAway(t0, maxDepth, pl0, t1, pl1, w, rs, b, x, p);
          } else if x == t0[w].parent && x in visited {
            assert Above(t0, x, x);
            VisAway(t0, maxDepth, pl0, t1, pl1, w, rs, x, x, p);
          } else {
            forall a | a in t0 && Above(t0, a, x) ensures CoveredBy(t0, pl0, w, a, p) <==> CoveredBy(t1, pl1, w, a, p) {
              AboveSame(t0, t1, a, x);
              if Above(t0, w, a) { AboveTrans(t0, w, a, x); }
            }
            VisSame(t0, maxDepth, pl0, t1, pl1, w, x, p);
          }
        }
      }
      ShownKept(t0, pl0, t1, pl1, x, sh0[x]);
    }
  }

  /** Windows that have `w` on top of them are its right siblings. */
  lemma {:induction false} CoveredAreRight(t: Tree, maxDepth: nat, w: Window, a: Window)
    requires Shape(t, maxDepth) && w in t && a in t && w in LeftOf(t, a)
    ensures a in RightOf(t, w) && !Above(t, w, a)
  {
    LeftMembers(t, maxDepth, a, w);
    var up := t[a].parent;
    assert KidsOK(t, up, maxDepth) && ParentOK(t, a) && ParentOK(t, w);
    var kids := t[up].kids;
    var i :| 0 <= i < |kids| && kids[i] == a;
    SplitAt(kids, i);
    var j :| 0 <= j < i && kids[j] == w;
    SplitAt(kids, j);
    assert kids[j + 1..][i - j - 1] == a;
    if Above(t, w, a) { AboveDepth(t, w, a); }
  }

  lemma {:induction false} RightMembers(t: Tree, maxDepth: nat, w: Window, u: Window)
    requires Shape(t, maxDepth) && w in t && u in RightOf(t, w)
    ensures u in t && HasParent(t, w) && t[u].parent == t[w].parent && t[u].depth == t[w].depth && !Above(t, w, u)
    ensures w in LeftOf(t, u)
  {
    var up := t[w].parent;
    assert KidsOK(t, up, maxDepth) && ParentOK(t, w);
    var kids := t[up].kids;
    var j :| 0 <= j < |kids| && kids[j] == w;
    SplitAt(kids, j);
    var i :| 0 <= i < |kids| - j - 1 && kids[j + 1..][i] == u;
    SplitAt(kids, i + j + 1);
    assert u in kids && HasParent(t, u);
    assert kids[..i + j + 1][j] == w;
    if Above(t, w, u) { AboveDepth(t, w, u); }
  }

  /** Opening, closing and moving leave the tree alone: only the right siblings are affected. */
  lemma {:induction false} PlaceChangeAffects(t: Tree, maxDepth: nat, pl0: Places, pl1: Places, w: Window)
    requires Shape(t, maxDepth) && t.Keys == pl0.Keys == pl1.Keys && w in t
    requires forall x :: x in t && !Above(t, w, x) ==> pl0[x] == pl1[x]
    ensures OnlyDiffersAt(t, pl0, t, pl1, w) && OnlyAffects(t, pl0, t, pl1, w, RightOf(t, w))
    ensures forall a :: a in RightOf(t, w) ==> a in t && !Above(t, w, a)
  {
    forall a | a in t && w in LeftOf(t, a) ensures a in RightOf(t, w) {
      CoveredAreRight(t, maxDepth, w, a);
    }
    forall a | a in RightOf(t, w) ensures a in t && !Above(t, w, a) {
      RightMembers(t, maxDepth, w, a);
    }
  }

  /** Nothing is visible in the subtree of a window that is not open all the way up. */
  lemma {:induction false} ClosedBelow(t: Tree, pl: Places, w: Window, x: Window)
    requires Above(t, w, x) && !AllOpen(t, pl, w)
    ensures !AllOpen(t, pl, x)
    decreases t[x].depth
  {
    if w != x { ClosedBelow(t, pl, w, t[x].parent); }
  }

  // ----- Opening -----

  lemma {:induction false} OpenRestores(t: Tree, maxDepth: nat, pl0: Places, pl1: Places, w: Window, visited: seq<Window>,
                     sh0: map<Window, Shown>, sh1: map<Window, Shown>, x: Window)
    requires Shape(t, maxDepth) && PlacesOK(t, pl0) && PlacesOK(t, pl1) && w in t && x in t
    requires !pl0[w].isOpen && pl1[w].isOpen
    requires forall y :: y in t && y != w ==> pl0[y].isOpen == pl1[y].isOpen
    requires forall y :: y in t && !Above(t, w, y) ==> pl0[y] == pl1[y]
    requires t[w].parent in visited && Visits(t, maxDepth, pl1, [pl1[w].pos], w, visited)
    requires forall a :: a in RightOf(t, w) ==> a in t && Visits(t, maxDepth, pl1, [pl1[w].pos], a, visited)
    requires AllShownOK(t, pl0, sh0) && Rebuilt(t, pl1, [pl1[w].pos], visited, sh0, sh1)
    ensures ShownOK(t, pl1, x, sh1[x])
  {
    var rs := [pl1[w].pos];
    PlaceChangeAffects(t, maxDepth, pl0, pl1, w);
    assert Bounds(pl0, pl1, w, rs);
    if !Above(t, w, x) {
      OutsideRestored(t, maxDepth, pl0, t, pl1, w, rs, RightOf(t, w), visited, sh0, sh1, x);
    } else if x in visited && Hit(pl1, rs, x) {
      BuildMeaning(t, pl1, x);
    } else {
      ClosedBelow(t, pl0, w, x);
      NothingShown(t, pl0, x, sh0[x]);
      InsideAway(t, maxDepth, pl1, w, rs, x);
      ShownNothing(t, pl1, x, sh1[x]);
    }
  }

  lemma {:induction false} TouchesItself(t: Tree, maxDepth: nat, pl: Places, w: Window, rs: seq<Rect>, a: Window)
    requires PlacesOK(t, pl) && w in t && Above(t, w, a) && Above(t, a, w) && pl[w].pos in rs
    ensures a == w && Touches(rs, pl[a].pos)
  {
    AboveDepth(t, a, w);
    AboveDepth(t, w, a);
    assert PlaceOK(pl[w]) && Intersects(pl[w].pos, pl[w].pos);
  }

  /** A window of `w`'s subtree that the traversal does not rebuild shows nothing. */
  lemma {:induction false} InsideAway(t: Tree, maxDepth: nat, pl: Places, w: Window, rs: seq<Rect>, x: Window)
    requires Shape(t, maxDepth) && PlacesOK(t, pl) && w in t && Above(t, w, x)
    requires pl[w].pos in rs && !(x in Pre(t, maxDepth, Cut(pl, rs), w) && Hit(pl, rs, x))
    ensures forall p :: !Vis(t, pl, x, p)
    ensures x == w ==> !pl[w].isOpen
  {
    if pl[x].isOpen {
      var a := Skipped(t, maxDepth, pl, rs, w, x);
      forall p ensures !Vis(t, pl, x, p) {
        if Vis(t, pl, x, p) {
          InAncestor(t, pl, a, x, p);
          InAncestor(t, pl, w, x, p);
          UntouchedApart(rs, pl[a].pos, p);
          assert Covers(rs, p);
        }
      }
      if x == w { TouchesItself(t, maxDepth, pl, w, rs, a); }
    }
  }

  // ----- Closing -----

  /** What window_close_one leaves in the subtree of the closed window `w`: no rectangles,
      and the flag raised below `w`. */
  ghost predicate Emptied(t: Tree, pl: Places, w: Window, sh0: map<Window, Shown>, sh1: map<Window, Shown>) {
    && t.Keys == pl.Keys == sh0.Keys == sh1.Keys
    && forall x :: x in t ==> sh1[x] == if Above(t, w, x) && AllOpen(t, pl, x)
                                        then Shown([], x != w || sh0[x].hidden) else sh0[x]
  }

  lemma {:induction false} CloseRestores(t: Tree, maxDepth: nat, pl0: Places, pl1: Places, w: Window, visited: seq<Window>,
                      sh0: map<Window, Shown>, shE: map<Window, Shown>, sh1: map<Window, Shown>, x: Window)
    requires Shape(t, maxDepth) && PlacesOK(t, pl0) && PlacesOK(t, pl1) && w in t && x in t
    requires pl0[w].isOpen && pl1 == pl0[w := pl0[w].(isOpen := false)]
    requires t[w].parent in visited
    requires forall a :: a in RightOf(t, w) ==> a in t && Visits(t, maxDepth, pl1, [pl0[w].pos], a, visited)
    requires forall v :: v in visited ==> !Above(t, w, v)
    requires AllShownOK(t, pl0, sh0) && Emptied(t, pl0, w, sh0, shE) && Rebuilt(t, pl1, [pl0[w].pos], visited, shE, sh1)
    ensures ShownOK(t, pl1, x, sh1[x])
  {
    var rs := [pl0[w].pos];
    assert Above(t, w, w);
    PlaceChangeAffects(t, maxDepth, pl0, pl1, w);
    assert Bounds(pl0, pl1, w, rs);
    if !Above(t, w, x) {
      var sh2 := map y | y in sh0 :: if Above(t, w, y) then sh0[y] else sh1[y];
      assert Rebuilt(t, pl1, rs, visited, sh0, sh2);
      OutsideRestored(t, maxDepth, pl0, t, pl1, w, rs, RightOf(t, w), visited, sh0, sh2, x);
    } else {
      assert !AllOpen(t, pl1, w);
      ClosedBelow(t, pl1, w, x);
      assert ShownOK(t, pl0, x, sh0[x]);
      if !AllOpen(t, pl0, x) { NothingShown(t, pl0, x, sh0[x]); }
      ShownNothing(t, pl1, x, sh1[x]);
    }
  }

  // ----- Moving -----

  function Moved(a: Place, dx: int, dy: int): Place {
    a.(pos := a.pos.Shift(dx, dy), work := a.work.Shift(dx, dy))
  }

  /** The open windows of `w`'s subtree are shifted (window_move_one), nothing else changes. */
  ghost predicate SubtreeMoved(t: Tree, w: Window, dx: int, dy: int, pl0: Places, pl1: Places) {
    && t.Keys == pl0.Keys == pl1.Keys
    && forall x :: x in t ==> pl1[x] == if Above(t, w, x) && pl0[x].isOpen then Moved(pl0[x], dx, dy) else pl0[x]
  }

  lemma {:induction false} ShiftHas(r: Rect, dx: int, dy: int, p: Pixel)
    ensures r.Shift(dx, dy).Has(p.Plus(dx, dy)) <==> r.Has(p)
  {
  }

  /** If an open window `a` of the subtree is away from `w` then nothing below `a` shows. */
  lemma {:induction false} ApartShowsNothing(t: Tree, pl: Places, w: Window, a: Window, x: Window, p: Pixel)
    requires PlacesOK(t, pl) && w in t && a in t && Above(t, w, a) && Above(t, a, x)
    requires !Intersects(pl[a].pos, pl[w].pos)
    ensures !Vis(t, pl, x, p)
  {
    if Vis(t, pl, x, p) {
      InAncestor(t, pl, a, x, p);
      InAncestor(t, pl, w, a, p);
      IntersectsMeaning(pl[a].pos, pl[w].pos);
    }
  }

  lemma {:induction false} MoveRestores(t: Tree, maxDepth: nat, pl0: Places, pl1: Places, w: Window, dx: int, dy: int,
                                        visited: seq<Window>, sh0: map<Window, Shown>, sh1: map<Window, Shown>, x: Window)
    requires Shape(t, maxDepth) && PlacesOK(t, pl0) && PlacesOK(t, pl1) && w in t && x in t
    requires pl0[w].isOpen && SubtreeMoved(t, w, dx, dy, pl0, pl1)
    requires t[w].parent in visited && Visits(t, maxDepth, pl1, [pl0[w].pos, pl1[w].pos], w, visited)
    requires forall a :: a in RightOf(t, w) ==> a in t && Visits(t, maxDepth, pl1, [pl0[w].pos, pl1[w].pos], a, visited)
    requires AllShownOK(t, pl0, sh0) && Rebuilt(t, pl1, [pl0[w].pos, pl1[w].pos], visited, sh0, sh1)
    ensures ShownOK(t, pl1, x, sh1[x])
  {
    var rs := [pl0[w].pos, pl1[w].pos];
    PlaceChangeAffects(t, maxDepth, pl0, pl1, w);
    assert Bounds(pl0, pl1, w, rs) by { assert rs[0] in rs && rs[1] in rs; }
    if !Above(t, w, x) {
      OutsideRestored(t, maxDepth, pl0, t, pl1, w, rs, RightOf(t, w), visited, sh0, sh1, x);
    } else if x in visited && Hit(pl1, rs, x) {
      BuildMeaning(t, pl1, x);
    } else {
      MovedAway(t, maxDepth, pl0, pl1, w, dx, dy, x);
      NothingShown(t, pl0, x, sh0[x]);
      ShownNothing(t, pl1, x, sh1[x]);
    }
  }

  /** A window of the moved subtree that the traversal does not rebuild shows nothing,
      neither before nor after the move. */
  lemma {:induction false} MovedAway(t: Tree, maxDepth: nat, pl0: Places, pl1: Places, w: Window, dx: int, dy: int, x: Window)
    requires Shape(t, maxDepth) && PlacesOK(t, pl0) && PlacesOK(t, pl1) && w in t && x in t && Above(t, w, x)
    requires pl0[w].isOpen && SubtreeMoved(t, w, dx, dy, pl0, pl1)
    requires var rs := [pl0[w].pos, pl1[w].pos]; !(x in Pre(t, maxDepth, Cut(pl1, rs), w) && Hit(pl1, rs, x))
    ensures forall p :: !Vis(t, pl0, x, p) && !Vis(t, pl1, x, p)
  {
    var rs := [pl0[w].pos, pl1[w].pos];
    if pl0[x].isOpen {
      var a := Skipped(t, maxDepth, pl1, rs, w, x);
      assert Above(t, w, w) && rs[1] in rs;
      forall p ensures !Vis(t, pl0, x, p) && !Vis(t, pl1, x, p) {
        ApartShowsNothing(t, pl0, w, a, x, p);
        ApartShowsNothing(t, pl1, w, a, x, p);
      }
    }
  }

  // ----- Moving a window that is not hidden: the rectangles are shifted -----

  /** An open window of the list intersects `pos`. */
  ghost predicate OpenHits(pl: Places, list: seq<Window>, pos: Rect) {
    exists u :: u in list && u in pl && pl[u].isOpen && Intersects(pos, pl[u].pos)
  }

  lemma {:induction false} OpenHitsLast(pl: Places, list: seq<Window>, pos: Rect)
    requires list != []
    ensures var u := list[|list| - 1];
            OpenHits(pl, list, pos) <==> OpenHits(pl, list[..|list| - 1], pos) || (u in pl && pl[u].isOpen && Intersects(pos, pl[u].pos))
  {
    assert list == list[..|list| - 1] + [list[|list| - 1]];
  }

  lemma {:induction false} NoOpenHits(pl: Places, pos: Rect)
    ensures !OpenHits(pl, [], pos)
  {
  }

  /** window_is_hidden: something on the way up hides a part of the rectangle `pos`. */
  ghost predicate HiddenFrom(t: Tree, pl: Places, pos: Rect, w: Window)
    requires w in t
    decreases t[w].depth
  {
    || OpenHits(pl, LeftOf(t, w), pos)
    || (HasParent(t, w) && (var up := t[w].parent;
                            up !in pl || !pl[up].isOpen || !Contains(pl[up].work, pos) || HiddenFrom(t, pl, pos, up)))
  }

  lemma {:induction false} NotHiddenReaches(t: Tree, pl: Places, pos: Rect, w: Window, p: Pixel)
    requires w in t && w in pl && pl[w].isOpen && pos.Has(p) && !HiddenFrom(t, pl, pos, w)
    ensures AllOpen(t, pl, w) && Reach(t, pl, w, p)
    decreases t[w].depth
  {
    forall u | u in LeftOf(t, w) && u in pl && pl[u].isOpen ensures !pl[u].pos.Has(p) {
      IntersectsMeaning(pos, pl[u].pos);
    }
    if HasParent(t, w) { NotHiddenReaches(t, pl, pos, t[w].parent, p); }
  }

  /** The exact meaning: an open window is hidden unless all its ancestors are open and every
      pixel of it comes through. */
  lemma {:induction false} HiddenMeaning(t: Tree, pl: Places, pos: Rect, w: Window)
    requires PlacesOK(t, pl) && w in t && pl[w].isOpen && pos.Positive()
    ensures !HiddenFrom(t, pl, pos, w) <==> AllOpen(t, pl, w) && forall p :: pos.Has(p) ==> Reach(t, pl, w, p)
    decreases t[w].depth
  {
    if !HiddenFrom(t, pl, pos, w) {
      var p0 := Pixel(pos.x0, pos.y0);
      assert pos.Has(p0);
      forall p | pos.Has(p) ensures AllOpen(t, pl, w) && Reach(t, pl, w, p) { NotHiddenReaches(t, pl, pos, w, p); }
    } else if AllOpen(t, pl, w) {
      HiddenLoses(t, pl, pos, w);
    }
  }

  lemma {:induction false} HiddenLoses(t: Tree, pl: Places, pos: Rect, w: Window)
    requires w in t && AllOpen(t, pl, w) && pos.Positive() && HiddenFrom(t, pl, pos, w)
    ensures exists p :: pos.Has(p) && !Reach(t, pl, w, p)
    decreases t[w].depth
  {
    if OpenHits(pl, LeftOf(t, w), pos) {
      var u :| u in LeftOf(t, w) && u in pl && pl[u].isOpen && Intersects(pos, pl[u].pos);
      IntersectsMeaning(pos, pl[u].pos);
      var p: Pixel :| pos.Has(p) && pl[u].pos.Has(p);
      assert OpenCovers(pl, LeftOf(t, w), p);
    } else {
      var up := t[w].parent;
      if !Contains(pl[up].work, pos) {
        LostPixel(pl[up].work, pos);
      } else {
        HiddenLoses(t, pl, pos, up);
      }
    }
  }

  /** `w` is visible as a whole, not counting its children, before and after the move. */
  ghost predicate FreeMove(t: Tree, pl0: Places, pl1: Places, w: Window) {
    && w in t && w in pl0 && w in pl1
    && !HiddenFrom(t, pl0, pl0[w].pos, w) && !HiddenFrom(t, pl1, pl1[w].pos, w)
  }

  lemma {:induction false} InShifted(t: Tree, maxDepth: nat, pl0: Places, pl1: Places, w: Window, dx: int, dy: int, x: Window, p: Pixel)
    requires Shape(t, maxDepth) && PlacesOK(t, pl0) && PlacesOK(t, pl1)
    requires FreeMove(t, pl0, pl1, w) && pl0[w].isOpen && SubtreeMoved(t, w, dx, dy, pl0, pl1) && Above(t, w, x)
    ensures In(t, pl1, x, p.Plus(dx, dy)) <==> In(t, pl0, x, p)
    decreases t[x].depth
  {
    var q := p.Plus(dx, dy);
    ShiftHas(pl0[x].pos, dx, dy, p);
    assert Above(t, w, w);
    if x == w {
      if pl0[w].pos.Has(p) {
        NotHiddenReaches(t, pl0, pl0[w].pos, w, p);
        NotHiddenReaches(t, pl1, pl1[w].pos, w, q);
      }
    } else {
      var up := t[x].parent;
      InShifted(t, maxDepth, pl0, pl1, w, dx, dy, up, p);
      ShiftHas(pl0[up].work, dx, dy, p);
      assert PlaceOK(pl0[up]) && PlaceOK(pl1[up]);
      LeftShifted(t, maxDepth, pl0, pl1, w, dx, dy, x, p);
    }
  }

  lemma {:induction false} LeftShifted(t: Tree, maxDepth: nat, pl0: Places, pl1: Places, w: Window, dx: int, dy: int, x: Window, p: Pixel)
    requires Shape(t, maxDepth) && SubtreeMoved(t, w, dx, dy, pl0, pl1) && Above(t, w, x) && x != w
    ensures OpenCovers(pl1, LeftOf(t, x), p.Plus(dx, dy)) <==> OpenCovers(pl0, LeftOf(t, x), p)
  {
    forall u | u in LeftOf(t, x) ensures u in t && Above(t, w, u) {
      LeftMembers(t, maxDepth, x, u);
      assert Above(t, w, t[x].parent);
    }
    ListShifted(t, w, dx, dy, pl0, pl1, LeftOf(t, x), p);
  }

  lemma {:induction false} ListShifted(t: Tree, w: Window, dx: int, dy: int, pl0: Places, pl1: Places, list: seq<Window>, p: Pixel)
    requires SubtreeMoved(t, w, dx, dy, pl0, pl1) && forall u :: u in list ==> u in t && Above(t, w, u)
    ensures OpenCovers(pl1, list, p.Plus(dx, dy)) <==> OpenCovers(pl0, list, p)
  {
    var q := p.Plus(dx, dy);
    if OpenCovers(pl0, list, p) {
      var u :| u in list && u in pl0 && pl0[u].isOpen && pl0[u].pos.Has(p);
      ShiftHas(pl0[u].pos, dx, dy, p);
      assert pl1[u].isOpen && pl1[u].pos.Has(q);
    }
    if OpenCovers(pl1, list, q) {
      var u :| u in list && u in pl1 && pl1[u].isOpen && pl1[u].pos.Has(q);
      ShiftHas(pl0[u].pos, dx, dy, p);
      assert pl0[u].isOpen && pl0[u].pos.Has(p);
    }
  }

  lemma {:induction false} VisShifted(t: Tree, maxDepth: nat, pl0: Places, pl1: Places, w: Window, dx: int, dy: int, x: Window, p: Pixel)
    requires Shape(t, maxDepth) && PlacesOK(t, pl0) && PlacesOK(t, pl1)
    requires FreeMove(t, pl0, pl1, w) && pl0[w].isOpen && SubtreeMoved(t, w, dx, dy, pl0, pl1) && Above(t, w, x)
    ensures Vis(t, pl1, x, p.Plus(dx, dy)) <==> Vis(t, pl0, x, p)
  {
    InShifted(t, maxDepth, pl0, pl1, w, dx, dy, x, p);
    ShiftHas(pl0[x].work, dx, dy, p);
    forall k | k in t[x].kids ensures k in t && Above(t, w, k) {
      KidHasParent(t, maxDepth, x, k);
      AboveTrans(t, w, x, k);
    }
    ListShifted(t, w, dx, dy, pl0, pl1, t[x].kids, p);
  }

  /** window_move_recs on one window */
  function ShiftRecs(recs: seq<Rect>, dx: int, dy: int): seq<Rect> {
    seq(|recs|, i requires 0 <= i < |recs| => recs[i].Shift(dx, dy))
  }

  lemma {:induction false} ShiftRecsMeaning(recs: seq<Rect>, dx: int, dy: int, p: Pixel)
    ensures Covers(ShiftRecs(recs, dx, dy), p.Plus(dx, dy)) <==> Covers(recs, p)
  {
    var recs' := ShiftRecs(recs, dx, dy);
    if Covers(recs, p) {
      var i :| 0 <= i < |recs| && recs[i].Has(p);
      assert recs'[i].Has(p.Plus(dx, dy)) && recs'[i] in recs';
    }
    if Covers(recs', p.Plus(dx, dy)) {
      var i :| 0 <= i < |recs'| && recs'[i].Has(p.Plus(dx, dy));
      assert recs[i].Has(p) && recs[i] in recs;
    }
  }

  lemma {:induction false} ShiftRecsNeat(s: Shown, dx: int, dy: int)
    requires Neat(s)
    ensures Neat(s.(recs := ShiftRecs(s.recs, dx, dy)))
  {
    var recs' := ShiftRecs(s.recs, dx, dy);
    forall r | r in recs' ensures r.Positive() {
      var i :| 0 <= i < |recs'| && recs'[i] == r;
      assert s.recs[i] in s.recs;
    }
    forall i, j | 0 <= i < j < |recs'| ensures !Intersects(recs'[i], recs'[j]) {
      assert !Intersects(s.recs[i], s.recs[j]);
    }
  }

  /** Shifting the rectangles gives the same pixels as rebuilding them. */
  lemma {:induction false} ShiftRestores(t: Tree, maxDepth: nat, pl0: Places, pl1: Places, w: Window, dx: int, dy: int, s: Shown, x: Window)
    requires Shape(t, maxDepth) && PlacesOK(t, pl0) && PlacesOK(t, pl1)
    requires FreeMove(t, pl0, pl1, w) && pl0[w].isOpen && SubtreeMoved(t, w, dx, dy, pl0, pl1) && Above(t, w, x)
    requires ShownOK(t, pl0, x, s) && pl0[x].isOpen
    ensures ShownOK(t, pl1, x, s.(recs := ShiftRecs(s.recs, dx, dy)))
  {
    var s' := s.(recs := ShiftRecs(s.recs, dx, dy));
    ShiftRecsNeat(s, dx, dy);
    forall q ensures Covers(s'.recs, q) <==> Vis(t, pl1, x, q) {
      var p := q.Plus(-dx, -dy);
      assert p.Plus(dx, dy) == q;
      ShiftRecsMeaning(s.recs, dx, dy, p);
      VisShifted(t, maxDepth, pl0, pl1, w, dx, dy, x, p);
    }
    if p :| pl0[x].pos.Has(p) && !Vis(t, pl0, x, p) {
      ShiftHas(pl0[x].pos, dx, dy, p);
      VisShifted(t, maxDepth, pl0, pl1, w, dx, dy, x, p);
    }
    if q :| pl1[x].pos.Has(q) && !Vis(t, pl1, x, q) {
      var p := q.Plus(-dx, -dy);
      assert p.Plus(dx, dy) == q;
      ShiftHas(pl0[x].pos, dx, dy, p);
      VisShifted(t, maxDepth, pl0, pl1, w, dx, dy, x, p);
    }
  }

  /** The lists of the open windows in `w`'s subtree are shifted (window_move_recs). */
  ghost predicate SubtreeShifted(t: Tree, w: Window, dx: int, dy: int, pl: Places, sh0: map<Window, Shown>, sh1: map<Window, Shown>) {
    && t.Keys == pl.Keys == sh0.Keys == sh1.Keys
    && forall x :: x in t ==> sh1[x] == if Above(t, w, x) && pl[x].isOpen
                                        then sh0[x].(recs := ShiftRecs(sh0[x].recs, dx, dy)) else sh0[x]
  }

  /** Outside the moved subtree, the shift of the rectangles does not show. */
  lemma {:induction false} MoveRebuilds(t: Tree, pl0: Places, pl1: Places, w: Window, dx: int, dy: int, rs: seq<Rect>, visited: seq<Window>,
                                        sh0: map<Window, Shown>, shS: map<Window, Shown>, sh1: map<Window, Shown>, sh2: map<Window, Shown>)
    requires SubtreeShifted(t, w, dx, dy, pl1, sh0, shS) && Rebuilt(t, pl1, rs, visited, shS, sh1)
    requires forall v :: v in visited ==> !Above(t, w, v)
    requires sh2 == map y | y in sh0 :: if Above(t, w, y) then sh0[y] else sh1[y]
    ensures Rebuilt(t, pl1, rs, visited, sh0, sh2)
  {
    hide Above, Hit, Build;
  }

  lemma {:induction false} MoveOutsideRestores(t: Tree, maxDepth: nat, pl0: Places, pl1: Places, w: Window, dx: int, dy: int,
                                               visited: seq<Window>, sh0: map<Window, Shown>, shS: map<Window, Shown>, sh1: map<Window, Shown>, x: Window)
    requires Shape(t, maxDepth) && PlacesOK(t, pl0) && PlacesOK(t, pl1) && x in t && !Above(t, w, x)
    requires FreeMove(t, pl0, pl1, w) && pl0[w].isOpen && SubtreeMoved(t, w, dx, dy, pl0, pl1)
    requires t[w].parent in visited
    requires forall a :: a in RightOf(t, w) ==> a in t && Visits(t, maxDepth, pl1, [pl0[w].pos, pl1[w].pos], a, visited)
    requires forall v :: v in visited ==> !Above(t, w, v)
    requires AllShownOK(t, pl0, sh0) && SubtreeShifted(t, w, dx, dy, pl1, sh0, shS)
    requires Rebuilt(t, pl1, [pl0[w].pos, pl1[w].pos], visited, shS, sh1)
    ensures ShownOK(t, pl1, x, sh1[x])
  {
    hide Shape, PlacesOK, ShownOK, RightOf, Visits, Vis, Above, Hit, Build, AllShownOK, OnlyAffects, OnlyDiffersAt;
    var rs := [pl0[w].pos, pl1[w].pos];
    PlaceChangeAffects(t, maxDepth, pl0, pl1, w);
    assert Bounds(pl0, pl1, w, rs) by { assert rs[0] in rs && rs[1] in rs; }
    var sh2 := map y | y in sh0 :: if Above(t, w, y) then sh0[y] else sh1[y];
    MoveRebuilds(t, pl0, pl1, w, dx, dy, rs, visited, sh0, shS, sh1, sh2);
    OutsideRestored(t, maxDepth, pl0, t, pl1, w, rs, RightOf(t, w), visited, sh0, sh2, x);
  }

  lemma {:induction false} FreeMoveRestores(t: Tree, maxDepth: nat, pl0: Places, pl1: Places, w: Window, dx: int, dy: int,
                                            visited: seq<Window>, sh0: map<Window, Shown>, shS: map<Window, Shown>, sh1: map<Window, Shown>, x: Window)
    requires Shape(t, maxDepth) && PlacesOK(t, pl0) && PlacesOK(t, pl1) && x in t
    requires FreeMove(t, pl0, pl1, w) && pl0[w].isOpen && SubtreeMoved(t, w, dx, dy, pl0, pl1)
    requires t[w].parent in visited
    requires forall a :: a in RightOf(t, w) ==> a in t && Visits(t, maxDepth, pl1, [pl0[w].pos, pl1[w].pos], a, visited)
    requires forall v :: v in visited ==> !Above(t, w, v)
    requires AllShownOK(t, pl0, sh0) && SubtreeShifted(t, w, dx, dy, pl1, sh0, shS)
    requires Rebuilt(t, pl1, [pl0[w].pos, pl1[w].pos], visited, shS, sh1)
    ensures ShownOK(t, pl1, x, sh1[x])
  {
    hide Shape, PlacesOK, RightOf;
    if !Above(t, w, x) {
      MoveOutsideRestores(t, maxDepth, pl0, pl1, w, dx, dy, visited, sh0, shS, sh1, x);
    } else if pl0[x].isOpen {
      assert ShownOK(t, pl0, x, sh0[x]);
      ShiftRestores(t, maxDepth, pl0, pl1, w, dx, dy, sh0[x], x);
    } else {
      assert ShownOK(t, pl0, x, sh0[x]);
      ShownKept(t, pl0, t, pl1, x, sh0[x]);
    }
  }
}
