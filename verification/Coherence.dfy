/** Saving, rebuilding and redrawing together keep the backing store coherent. */
module Coherence {
  import opened Geometry
  import opened WindowTree
  import opened Orders
  import opened Visibility
  import opened VisibleRects
  import opened Changes
  import opened Visitors
  import opened Backing

  // ----- More cover, less visible -----

  /** Between `x` and the root, `w` covers `p` afterwards wherever it did before. */
  ghost predicate CoverGrows(t0: Tree, pl0: Places, t1: Tree, pl1: Places, w: Window, x: Window, p: Pixel)
    requires t0.Keys == t1.Keys && w in pl0 && w in pl1
  {
    forall a :: a in t0 && Above(t0, a, x) && CoveredBy(t0, pl0, w, a, p) ==> CoveredBy(t1, pl1, w, a, p)
  }

  lemma {:induction false} OpenCoversGrows(t0: Tree, maxDepth: nat, pl0: Places, t1: Tree, pl1: Places, w: Window, a: Window, p: Pixel)
    requires Shape(t0, maxDepth) && OnlyDiffersAt(t0, pl0, t1, pl1, w) && a in t0 && !Above(t0, w, a)
    requires CoveredBy(t0, pl0, w, a, p) ==> CoveredBy(t1, pl1, w, a, p)
    ensures OpenCovers(pl0, LeftOf(t0, a), p) ==> OpenCovers(pl1, LeftOf(t1, a), p)
  {
    if u :| u in LeftOf(t0, a) && u in pl0 && pl0[u].isOpen && pl0[u].pos.Has(p) {
      assert Above(t0, w, w);
      if u != w {
        SiblingOutside(t0, maxDepth, w, a, u);
        assert SameBut(LeftOf(t0, a), LeftOf(t1, a), [w]);
      } else {
        assert CoveredBy(t0, pl0, w, a, p);
      }
    }
  }

  lemma {:induction false} InShrinks(t0: Tree, maxDepth: nat, pl0: Places, t1: Tree, pl1: Places, w: Window, x: Window, p: Pixel)
    requires Shape(t0, maxDepth) && OnlyDiffersAt(t0, pl0, t1, pl1, w) && x in t0 && !Above(t0, w, x)
    requires CoverGrows(t0, pl0, t1, pl1, w, x, p)
    ensures AllOpen(t1, pl1, x) ==> AllOpen(t0, pl0, x)
    ensures Reach(t1, pl1, x, p) ==> Reach(t0, pl0, x, p)
    decreases t0[x].depth
  {
    assert Above(t0, x, x);
    OpenCoversGrows(t0, maxDepth, pl0, t1, pl1, w, x, p);
    assert HasParent(t0, x) <==> HasParent(t1, x);
    if HasParent(t0, x) {
      var up := t0[x].parent;
      assert !Above(t0, w, up);
      forall a | a in t0 && Above(t0, a, up) ensures Above(t0, a, x) {}
      InShrinks(t0, maxDepth, pl0, t1, pl1, w, up, p);
    }
  }

  lemma {:induction false} VisShrinks(t0: Tree, maxDepth: nat, pl0: Places, t1: Tree, pl1: Places, w: Window, x: Window, p: Pixel)
    requires Shape(t0, maxDepth) && OnlyDiffersAt(t0, pl0, t1, pl1, w) && x in t0 && !Above(t0, w, x)
    requires CoverGrows(t0, pl0, t1, pl1, w, x, p)
    requires t0[w].parent == x && pl0[w].isOpen && pl0[w].pos.Has(p) ==> pl1[w].isOpen && pl1[w].pos.Has(p)
    ensures Vis(t1, pl1, x, p) ==> Vis(t0, pl0, x, p)
  {
    if Vis(t1, pl1, x, p) {
      InShrinks(t0, maxDepth, pl0, t1, pl1, w, x, p);
      assert Above(t0, w, w);
      assert SameBut(t0[x].kids, t1[x].kids, []);
      if k :| k in t0[x].kids && k in pl0 && pl0[k].isOpen && pl0[k].pos.Has(p) && pl0[x].work.Has(p) {
        KidHasParent(t0, maxDepth, x, k);
      }
    }
  }

  /** `w` uncovers `p` for `x`: it covered it before, on the way up or as a child, and does
      not do so afterwards. */
  ghost predicate Uncovers(t0: Tree, pl0: Places, t1: Tree, pl1: Places, w: Window, x: Window, p: Pixel)
    requires t0.Keys == t1.Keys && w in t0 && w in pl0 && w in pl1
  {
    || (exists a :: a in t0 && Above(t0, a, x) && CoveredBy(t0, pl0, w, a, p) && !CoveredBy(t1, pl1, w, a, p))
    || (t0[w].parent == x && pl0[w].isOpen && pl0[w].pos.Has(p) && !(pl1[w].isOpen && pl1[w].pos.Has(p)))
  }

  /** A pixel that becomes visible in a window outside the subtree of `w` was uncovered. */
  lemma {:induction false} NewlyVisible(t0: Tree, maxDepth: nat, pl0: Places, t1: Tree, pl1: Places, w: Window, x: Window, p: Pixel)
    requires Shape(t0, maxDepth) && OnlyDiffersAt(t0, pl0, t1, pl1, w) && x in t0 && !Above(t0, w, x)
    requires Vis(t1, pl1, x, p) && !Vis(t0, pl0, x, p)
    ensures Uncovers(t0, pl0, t1, pl1, w, x, p)
  {
    if !Uncovers(t0, pl0, t1, pl1, w, x, p) {
      VisShrinks(t0, maxDepth, pl0, t1, pl1, w, x, p);
    }
  }

  /** The relation between the two situations read backwards. */
  lemma {:induction false} DiffersBackwards(t0: Tree, maxDepth: nat, pl0: Places, t1: Tree, pl1: Places, w: Window)
    requires OnlyDiffersAt(t0, pl0, t1, pl1, w)
    ensures OnlyDiffersAt(t1, pl1, t0, pl0, w)
  {
    forall x | x in t1 && !Above(t1, w, x) ensures pl1[x] == pl0[x] {
      AboveSame(t0, t1, w, x);
    }
  }

  /** A pixel that stops being visible in a window outside the subtree of `w` is covered by
      `w` afterwards. */
  lemma {:induction false} NewlyHidden(t0: Tree, maxDepth: nat, pl0: Places, t1: Tree, pl1: Places, w: Window, x: Window, p: Pixel)
    requires Shape(t1, maxDepth) && OnlyDiffersAt(t0, pl0, t1, pl1, w) && x in t0 && !Above(t0, w, x)
    requires Vis(t0, pl0, x, p) && !Vis(t1, pl1, x, p)
    ensures Uncovers(t1, pl1, t0, pl0, w, x, p)
  {
    DiffersBackwards(t0, maxDepth, pl0, t1, pl1, w);
    AboveSame(t0, t1, w, x);
    NewlyVisible(t1, maxDepth, pl1, t0, pl0, w, x, p);
  }

  // ----- The redraw at the end of an operation -----

  /** What must hold of a window before the final redrawing traversal. */
  ghost predicate Ready(t: State, rs: seq<Rect>, list: seq<Window>, x: Window)
    requires t.Domains() && x in t.tree
  {
    && (!t.store[x].isDirty ==> BitmapWhole(t, x))
    && (t.store[x].isDirty ==> t.place[x].isOpen && !t.shown[x].hidden && !t.store[x].dirty.Positive())
    && (t.place[x].isOpen && !t.shown[x].hidden ==> !t.store[x].dirty.Positive() || x in list)
    && (t.place[x].isOpen ==>
          forall p :: Covers(t.shown[x].recs, p) && !DirtyOnScreen(t, x).Has(p) ==>
            t.screen(p) == ContentAt(t, x, p) || (x in list && Covers(rs, p)))
  }

  /** The redraw copies a pixel that the bitmap of `x` has not got. */
  ghost predicate Stale(t: State, rs: seq<Rect>, list: seq<Window>, x: Window)
    requires t.Domains() && x in t.tree
  {
    x in list && t.store[x].isDirty &&
    exists p :: Covers(t.shown[x].recs, p) && Covers(rs, p) && BitmapAt(t, x, p) != ContentAt(t, x, p)
  }

  /** What the redrawing traversal does to the fields of `x`. */
  lemma {:induction false} RedrawnFields(t: State, rs: seq<Rect>, list: seq<Window>, x: Window)
    requires t.Domains() && Distinct(list) && x in t.tree
    ensures var s' := Fold(t, RedrawContents(rs), list);
            && s'.Domains() && s'.tree == t.tree && s'.place == t.place && s'.shown == t.shown && s'.content == t.content
            && s'.store[x].bitmap == t.store[x].bitmap && s'.store[x].isDirty == t.store[x].isDirty
            && (if x in list && t.place[x].isOpen && MustFlush(t, x) then !s'.store[x].dirty.Positive()
                else s'.store[x].dirty == t.store[x].dirty)
  {
    FoldFrame(t, RedrawContents(rs), list);
    if x in list {
      FoldRedrawStore(t, rs, list, x);
      RedrawMeaning(t, x, rs, Pixel(0, 0));
    } else {
      FoldElsewhere(t, RedrawContents(rs), list, x);
    }
  }

  lemma {:induction false} StaleBreaks(t: State, rs: seq<Rect>, list: seq<Window>, x: Window)
    requires t.Domains() && Apart(t) && Distinct(list) && (forall y :: y in list ==> y in t.tree)
    requires x in t.tree && Ready(t, rs, list, x) && Stale(t, rs, list, x)
    ensures Fold(t, RedrawContents(rs), list).Domains() && !Coherent(Fold(t, RedrawContents(rs), list), x)
  {
    hide Fold;
    RedrawnFields(t, rs, list, x);
    var p :| Covers(t.shown[x].recs, p) && Covers(rs, p) && BitmapAt(t, x, p) != ContentAt(t, x, p);
    FoldRedraw(t, rs, list, p);
    var s' := Fold(t, RedrawContents(rs), list);
    assert !MustFlush(t, x);
    assert s'.store[x].dirty == t.store[x].dirty && !DirtyOnScreen(s', x).Has(p);
    assert s'.screen(p) == BitmapAt(t, x, p);
    assert s'.screen(p) != ContentAt(s', x, p);
    assert !ScreenFresh(s', x);
  }

  /** Redrawing makes a ready window coherent, unless it copies a stale pixel. */
  lemma {:induction false} RedrawRestores(t: State, rs: seq<Rect>, list: seq<Window>, x: Window)
    requires t.Domains() && Apart(t) && Distinct(list) && (forall y :: y in list ==> y in t.tree)
    requires x in t.tree && ShownOK(t.tree, t.place, x, t.shown[x]) && Ready(t, rs, list, x)
    ensures Fold(t, RedrawContents(rs), list).Domains()
    ensures Coherent(Fold(t, RedrawContents(rs), list), x) <==> !Stale(t, rs, list, x)
  {
    hide Fold, Stale, Ready, ShownOK, Apart, Coherent, Distinct;
    RedrawnFields(t, rs, list, x);
    if Stale(t, rs, list, x) { StaleBreaks(t, rs, list, x); } else { FreshKeeps(t, rs, list, x); }
  }

  lemma {:induction false} FreshKeeps(t: State, rs: seq<Rect>, list: seq<Window>, x: Window)
    requires t.Domains() && Apart(t) && Distinct(list) && (forall y :: y in list ==> y in t.tree)
    requires x in t.tree && ShownOK(t.tree, t.place, x, t.shown[x]) && Ready(t, rs, list, x) && !Stale(t, rs, list, x)
    ensures Fold(t, RedrawContents(rs), list).Domains() && Coherent(Fold(t, RedrawContents(rs), list), x)
  {
    hide Fold, Stale, ShownOK, Apart, Distinct;
    RedrawnFields(t, rs, list, x);
    var s' := Fold(t, RedrawContents(rs), list);
    forall p | t.place[x].isOpen && Covers(t.shown[x].recs, p) && !DirtyOnScreen(s', x).Has(p)
      ensures s'.screen(p) == ContentAt(s', x, p)
    {
      RedrawnPixel(t, rs, list, x, p);
    }
  }

  lemma {:induction false} RedrawnPixel(t: State, rs: seq<Rect>, list: seq<Window>, x: Window, p: Pixel)
    requires t.Domains() && Apart(t) && Distinct(list) && (forall y :: y in list ==> y in t.tree)
    requires x in t.tree && ShownOK(t.tree, t.place, x, t.shown[x]) && Ready(t, rs, list, x) && !Stale(t, rs, list, x)
    requires t.place[x].isOpen && Covers(t.shown[x].recs, p)
    requires DirtyOnScreen(t, x).Has(p) ==> x in list && MustFlush(t, x)
    ensures Fold(t, RedrawContents(rs), list).screen(p) == ContentAt(t, x, p)
  {
    FoldRedraw(t, rs, list, p);
    ShownFully(t, x);
    if x in list && RedrawHits(t, x, rs, p) {
      assert BitmapAt(t, x, p) == ContentAt(t, x, p);
    } else {
      forall y | y in list ensures !RedrawHits(t, y, rs, p) {}
    }
  }

  // ----- From the state before the operation to the one before the redraw -----

  lemma {:induction false} CoherentAt(s: State, v: Window)
    requires s.Domains() && AllCoherent(s) && v in s.tree
    ensures Coherent(s, v)
  {
    assert Coherent(s, v);
  }

  /** Everything about the tree and the rectangles is in order. */
  ghost predicate Sound(s: State, root: Window, maxDepth: nat) {
    && s.Domains() && TreeOK(s.tree, root, maxDepth) && Shape(s.tree, maxDepth)
    && PlacesOK(s.tree, s.place) && AllShownOK(s.tree, s.place, s.shown)
  }

  lemma {:induction false} SoundAt(s: State, root: Window, maxDepth: nat, x: Window)
    requires Sound(s, root, maxDepth) && x in s.tree
    ensures ShownOK(s.tree, s.place, x, s.shown[x])
  {
    assert ShownOK(s.tree, s.place, x, s.shown[x]);
  }

  ghost predicate AllCoherent(s: State)
    requires s.Domains()
  {
    forall x {:trigger Coherent(s, x)} :: x in s.tree ==> Coherent(s, x)
  }

  /** From `s` to `t` the window `w` has changed and the rectangles have been rebuilt; the
      screen is still the old one. */
  ghost predicate Changed(s: State, t: State, w: Window, root: Window, maxDepth: nat) {
    && Sound(s, root, maxDepth) && Sound(t, root, maxDepth)
    && OnlyDiffersAt(s.tree, s.place, t.tree, t.place, w)
    && t.screen == s.screen && t.content == s.content
  }

  /** What the saving traversals with rectangle `r` leave of the backing store of `x`. */
  ghost predicate SavedFor(s: State, t: State, x: Window, r: Rect, visited: bool)
    requires s.Domains() && t.Domains() && x in s.tree && x in t.tree
  {
    && t.store[x].dirty == s.store[x].dirty
    && (!t.store[x].isDirty ==> BitmapWhole(t, x))
    && (t.store[x].isDirty ==> s.store[x].isDirty && t.store[x].bitmap == s.store[x].bitmap)
    && (t.store[x].isDirty && visited ==> !Intersects(s.place[x].pos, r))
  }

  lemma {:induction false} UnhiddenShows(s: State, root: Window, maxDepth: nat, x: Window, p: Pixel)
    requires Sound(s, root, maxDepth) && x in s.tree && s.place[x].isOpen && !s.shown[x].hidden && s.place[x].pos.Has(p)
    ensures Vis(s.tree, s.place, x, p) && Covers(s.shown[x].recs, p)
  {
    assert ShownOK(s.tree, s.place, x, s.shown[x]);
  }

  lemma {:induction false} CoveredIsVisible(s: State, root: Window, maxDepth: nat, x: Window, p: Pixel)
    requires Sound(s, root, maxDepth) && x in s.tree
    ensures Covers(s.shown[x].recs, p) <==> Vis(s.tree, s.place, x, p)
    ensures Covers(s.shown[x].recs, p) ==> s.place[x].isOpen && s.place[x].pos.Has(p)
  {
    assert ShownOK(s.tree, s.place, x, s.shown[x]);
  }

  /** A window outside the subtree of `w`: if whatever `w` newly covers was saved first and
      whatever it uncovers is going to be redrawn, the window is ready. */
  lemma {:induction false} OutsideReady(s: State, t: State, w: Window, root: Window, maxDepth: nat, r: Rect, visited: bool,
                                        rs: seq<Rect>, list: seq<Window>, x: Window)
    requires Changed(s, t, w, root, maxDepth) && x in s.tree && !Above(s.tree, w, x) && Coherent(s, x)
    requires SavedFor(s, t, x, r, visited)
    requires forall p :: Uncovers(t.tree, t.place, s.tree, s.place, w, x, p) ==> visited && r.Has(p)
    requires forall p :: Uncovers(s.tree, s.place, t.tree, t.place, w, x, p) ==> x in list && Covers(rs, p)
    ensures Ready(t, rs, list, x)
  {
    assert t.place[x] == s.place[x];
    if t.store[x].isDirty { StaysUnhidden(s, t, w, root, maxDepth, r, visited, x); }
    if t.place[x].isOpen && !t.shown[x].hidden && t.store[x].dirty.Positive() {
      assert ShownOK(s.tree, s.place, x, s.shown[x]);
      var p :| s.place[x].pos.Has(p) && !Vis(s.tree, s.place, x, p);
      UnhiddenShows(t, root, maxDepth, x, p);
      NewlyVisible(s.tree, maxDepth, s.place, t.tree, t.place, w, x, p);
    }
    forall p | t.place[x].isOpen && Covers(t.shown[x].recs, p) && !DirtyOnScreen(t, x).Has(p)
      ensures t.screen(p) == ContentAt(t, x, p) || (x in list && Covers(rs, p))
    {
      CoveredIsVisible(t, root, maxDepth, x, p);
      CoveredIsVisible(s, root, maxDepth, x, p);
      if !Vis(s.tree, s.place, x, p) {
        NewlyVisible(s.tree, maxDepth, s.place, t.tree, t.place, w, x, p);
      }
    }
  }

  /** A window that is still dirty after the saves is not newly hidden. */
  lemma {:induction false} StaysUnhidden(s: State, t: State, w: Window, root: Window, maxDepth: nat, r: Rect, visited: bool, x: Window)
    requires Changed(s, t, w, root, maxDepth) && x in s.tree && !Above(s.tree, w, x) && Coherent(s, x)
    requires SavedFor(s, t, x, r, visited) && t.store[x].isDirty
    requires forall p :: Uncovers(t.tree, t.place, s.tree, s.place, w, x, p) ==> visited && r.Has(p)
    ensures t.place[x].isOpen && !t.shown[x].hidden && !t.store[x].dirty.Positive()
  {
    assert t.place[x] == s.place[x];
    assert ShownOK(t.tree, t.place, x, t.shown[x]);
    if t.shown[x].hidden {
      var p :| t.place[x].pos.Has(p) && !Vis(t.tree, t.place, x, p);
      UnhiddenShows(s, root, maxDepth, x, p);
      NewlyHidden(s.tree, maxDepth, s.place, t.tree, t.place, w, x, p);
      IntersectsMeaning(s.place[x].pos, r);
    }
  }

  /** ... and no stale pixel is copied if the redrawn part was not visible before. */
  lemma {:induction false} OutsideNotStale(s: State, t: State, w: Window, root: Window, maxDepth: nat, r: Rect, visited: bool,
                                           rs: seq<Rect>, list: seq<Window>, x: Window)
    requires Changed(s, t, w, root, maxDepth) && x in s.tree && !Above(s.tree, w, x) && Coherent(s, x)
    requires SavedFor(s, t, x, r, visited)
    requires forall p :: x in list && Covers(rs, p) ==> !Vis(s.tree, s.place, x, p)
    ensures !Stale(t, rs, list, x)
  {
    if Stale(t, rs, list, x) {
      var p :| Covers(t.shown[x].recs, p) && Covers(rs, p) && BitmapAt(t, x, p) != ContentAt(t, x, p);
      CoveredIsVisible(t, root, maxDepth, x, p);
      assert t.place[x] == s.place[x];
      UnhiddenShows(s, root, maxDepth, x, p);
    }
  }

  /** A window of `w`'s subtree whose bitmap is whole and that is redrawn within `w`. */
  lemma {:induction false} InsideReady(t: State, w: Window, root: Window, maxDepth: nat, rs: seq<Rect>, list: seq<Window>, x: Window)
    requires Sound(t, root, maxDepth) && w in t.tree && Above(t.tree, w, x) && x in t.tree
    requires !t.store[x].isDirty && BitmapWhole(t, x) && x in list && t.place[w].pos in rs
    ensures Ready(t, rs, list, x) && !Stale(t, rs, list, x)
  {
    forall p | Covers(t.shown[x].recs, p) ensures Covers(rs, p) {
      CoveredIsVisible(t, root, maxDepth, x, p);
      InAncestor(t.tree, t.place, w, x, p);
    }
  }

  /** Moving a window takes its bitmap along. */
  lemma {:induction false} BitmapMoved(s: State, t: State, x: Window)
    requires s.Domains() && t.Domains() && x in s.tree && x in t.tree && BitmapWhole(s, x)
    requires s.store[x].bitmap == t.store[x].bitmap && s.content[x] == t.content[x]
    requires s.place[x].pos.w == t.place[x].pos.w && s.place[x].pos.h == t.place[x].pos.h
    ensures BitmapWhole(t, x)
  {
    forall p | t.place[x].pos.Has(p) ensures BitmapAt(t, x, p) == ContentAt(t, x, p) {
      var a, b := s.place[x].pos, t.place[x].pos;
      var q := p.Plus(a.x0 - b.x0, a.y0 - b.y0);
      assert a.Has(q);
      assert q.Plus(-a.x0, -a.y0) == p.Plus(-b.x0, -b.y0);
      assert BitmapAt(s, x, q) == ContentAt(s, x, q);
    }
  }

  // ----- Two redraws in a row -----

  /** A redraw leaves the windows that it does not visit as ready as they were. */
  lemma {:induction false} RedrawLeaves(t: State, rs: seq<Rect>, list: seq<Window>, rs2: seq<Rect>, list2: seq<Window>, x: Window)
    requires t.Domains() && Apart(t) && Distinct(list) && (forall y :: y in list ==> y in t.tree) && x in t.tree && x !in list
    requires Ready(t, rs2, list2, x)
    ensures var t1 := Fold(t, RedrawContents(rs), list);
            Ready(t1, rs2, list2, x) && (Stale(t1, rs2, list2, x) <==> Stale(t, rs2, list2, x))
  {
    hide Fold;
    RedrawnFields(t, rs, list, x);
    var t1 := Fold(t, RedrawContents(rs), list);
    forall p | Covers(t.shown[x].recs, p) ensures t1.screen(p) == t.screen(p) {
      FoldRedraw(t, rs, list, p);
      forall y | y in list ensures !RedrawHits(t, y, rs, p) {}
    }
    assert forall p :: BitmapAt(t1, x, p) == BitmapAt(t, x, p) && ContentAt(t1, x, p) == ContentAt(t, x, p);
  }

  /** A coherent window that is not redrawn stays coherent. */
  lemma {:induction false} CoherentReady(t: State, rs: seq<Rect>, list: seq<Window>, x: Window)
    requires t.Domains() && x in t.tree && Coherent(t, x) && x !in list
    ensures Ready(t, rs, list, x) && !Stale(t, rs, list, x)
  {
  }
}
