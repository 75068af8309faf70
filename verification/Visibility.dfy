/** Which window owns a pixel, said twice: bottom-up, following a window towards the root
    as window_build_recs does, and top-down, as the search of window_find does. */
module Visibility {
  import opened Geometry
  import opened WindowTree
  import opened Orders

  /** Sizes are positive and the working area lies inside the window. */
  ghost predicate PlaceOK(a: Place) {
    && a.pos.Positive() && a.area.Positive()
    && Contains(Rect(0, 0, a.pos.w, a.pos.h), a.area)
    && a.work == a.area.Shift(a.pos.x0, a.pos.y0)
  }

  ghost predicate PlacesOK(t: Tree, pl: Places) {
    pl.Keys == t.Keys && forall w {:trigger PlaceOK(pl[w])} :: w in pl ==> PlaceOK(pl[w])
  }

  lemma {:induction false} PositiveAt(t: Tree, pl: Places, w: Window)
    requires PlacesOK(t, pl) && w in pl
    ensures pl[w].pos.Positive()
  {
    assert PlaceOK(pl[w]);
  }

  // ----- Bottom-up -----

  /** `w` and all its ancestors are open. */
  ghost predicate AllOpen(t: Tree, pl: Places, w: Window)
    decreases if w in t then t[w].depth else 0
  {
    w in t && w in pl && pl[w].isOpen && (HasParent(t, w) ==> AllOpen(t, pl, t[w].parent))
  }

  /** An open window of the list covers `p`. */
  ghost predicate OpenCovers(pl: Places, list: seq<Window>, p: Pixel) {
    exists u :: u in list && u in pl && pl[u].isOpen && pl[u].pos.Has(p)
  }

  /** On the way from `w` to the root nothing hides `p`: no open window lies on top, and
      every ancestor's working area contains the pixel. */
  ghost predicate Reach(t: Tree, pl: Places, w: Window, p: Pixel)
    decreases if w in t then t[w].depth else 0
  {
    && w in t
    && !OpenCovers(pl, LeftOf(t, w), p)
    && (HasParent(t, w) ==> t[w].parent in pl && pl[t[w].parent].work.Has(p) && Reach(t, pl, t[w].parent, p))
  }

  /** `p` belongs to `w` or to one of its descendants. */
  ghost predicate In(t: Tree, pl: Places, w: Window, p: Pixel) {
    AllOpen(t, pl, w) && pl[w].pos.Has(p) && Reach(t, pl, w, p)
  }

  /** A child of `w` hides `p`; children are clipped to the working area. */
  ghost predicate KidCovers(t: Tree, pl: Places, w: Window, p: Pixel)
    requires w in t && w in pl
  {
    pl[w].work.Has(p) && OpenCovers(pl, t[w].kids, p)
  }

  /** `p` is visible as a pixel of `w`. */
  ghost predicate Vis(t: Tree, pl: Places, w: Window, p: Pixel) {
    In(t, pl, w, p) && !KidCovers(t, pl, w, p)
  }

  // ----- Top-down -----

  /** The first open window of the list that contains `p` (the inner loop of window_find). */
  ghost function FirstHit(pl: Places, list: seq<Window>, p: Pixel): (u: Window?)
    ensures u != null ==> u in list && u in pl && pl[u].isOpen && pl[u].pos.Has(p)
  {
    if list == [] then null
    else if list[0] in pl && pl[list[0]].isOpen && pl[list[0]].pos.Has(p) then list[0]
    else FirstHit(pl, list[1..], p)
  }

  /** The window that owns `p`, given that `p` belongs to `w` or its descendants. */
  ghost function FindFrom(t: Tree, maxDepth: nat, pl: Places, w: Window, p: Pixel): Window
    requires Shape(t, maxDepth) && w in t && w in pl
    decreases maxDepth + 1 - t[w].depth
  {
    assert KidsOK(t, w, maxDepth);
    if !pl[w].work.Has(p) then w
    else
      var k := FirstHit(pl, t[w].kids, p);
      if k == null then w else FindFrom(t, maxDepth, pl, k, p)
  }

  /** The uncached search of window_find. */
  ghost function Find(t: Tree, maxDepth: nat, pl: Places, root: Window, p: Pixel): Window?
    requires Shape(t, maxDepth) && root in t
  {
    var k := FirstHit(pl, [root], p);
    if k == null then null else FindFrom(t, maxDepth, pl, k, p)
  }

  // ----- Facts about one level -----

  /** Membership in an ancestor: what is visible of a window lies inside every ancestor. */
  lemma {:induction false} InAncestor(t: Tree, pl: Places, a: Window, w: Window, p: Pixel)
    requires PlacesOK(t, pl) && Above(t, a, w) && In(t, pl, w, p)
    ensures In(t, pl, a, p)
    ensures a != w ==> pl[a].work.Has(p)
    decreases t[w].depth
  {
    if a != w {
      var up := t[w].parent;
      assert pl[up].work.Has(p);
      assert PlaceOK(pl[up]);
      InAncestor(t, pl, a, up, p);
    }
  }

  lemma {:induction false} NoFirstHit(pl: Places, list: seq<Window>, p: Pixel)
    ensures FirstHit(pl, list, p) == null <==> !OpenCovers(pl, list, p)
  {
    if list != [] {
      NoFirstHit(pl, list[1..], p);
      assert forall u :: u in list <==> u == list[0] || u in list[1..];
    }
  }

  lemma {:induction false} FirstHitIsFirst(pl: Places, list: seq<Window>, k: Window, p: Pixel)
    requires FirstHit(pl, list, p) == k
    ensures !OpenCovers(pl, Before(list, k), p)
  {
    if list[0] != k {
      FirstHitIsFirst(pl, list[1..], k, p);
      assert forall u :: u in Before(list, k) <==> u == list[0] || u in Before(list[1..], k);
    }
  }

  lemma {:induction false} OnlyFirstHit(pl: Places, list: seq<Window>, k: Window, p: Pixel)
    requires k in list && k in pl && pl[k].isOpen && pl[k].pos.Has(p) && !OpenCovers(pl, Before(list, k), p)
    ensures FirstHit(pl, list, p) == k
  {
    if list[0] != k {
      assert list[0] in Before(list, k);
      forall u | u in Before(list[1..], k) ensures u in Before(list, k) {}
      OnlyFirstHit(pl, list[1..], k, p);
    }
  }

  // ----- The two descriptions agree -----

  lemma {:induction false} KidIn(t: Tree, maxDepth: nat, pl: Places, w: Window, k: Window, p: Pixel)
    requires Shape(t, maxDepth) && PlacesOK(t, pl) && w in t && In(t, pl, w, p) && pl[w].work.Has(p)
    requires FirstHit(pl, t[w].kids, p) == k
    ensures k in t && In(t, pl, k, p) && Above(t, w, k) && t[k].depth == t[w].depth + 1
  {
    KidHasParent(t, maxDepth, w, k);
    FirstHitIsFirst(pl, t[w].kids, k, p);
  }

  /** The search never leaves the tree. */
  lemma {:induction false} FoundIn(t: Tree, maxDepth: nat, pl: Places, w: Window, p: Pixel)
    requires Shape(t, maxDepth) && t.Keys == pl.Keys && w in t
    ensures FindFrom(t, maxDepth, pl, w, p) in t
    decreases maxDepth + 1 - t[w].depth
  {
    assert KidsOK(t, w, maxDepth);
    if pl[w].work.Has(p) && FirstHit(pl, t[w].kids, p) != null { FoundIn(t, maxDepth, pl, FirstHit(pl, t[w].kids, p), p); }
  }

  /** Going down: the search result is visible at `p`. */
  lemma {:induction false} FoundIsVisible(t: Tree, maxDepth: nat, pl: Places, w: Window, p: Pixel)
    requires Shape(t, maxDepth) && PlacesOK(t, pl) && w in t && In(t, pl, w, p)
    ensures var v := FindFrom(t, maxDepth, pl, w, p); Above(t, w, v) && Vis(t, pl, v, p)
    decreases maxDepth + 1 - t[w].depth
  {
    assert KidsOK(t, w, maxDepth);
    assert Above(t, w, w);
    if pl[w].work.Has(p) {
      var k := FirstHit(pl, t[w].kids, p);
      NoFirstHit(pl, t[w].kids, p);
      if k != null {
        KidIn(t, maxDepth, pl, w, k, p);
        FoundIsVisible(t, maxDepth, pl, k, p);
        AboveTrans(t, w, k, FindFrom(t, maxDepth, pl, k, p));
      }
    }
  }

  /** Going up: the search passes through every window that `p` belongs to. */
  lemma {:induction false} SearchPasses(t: Tree, maxDepth: nat, pl: Places, root: Window, w: Window, p: Pixel)
    requires TreeOK(t, root, maxDepth) && PlacesOK(t, pl) && w in t && In(t, pl, w, p)
    ensures Find(t, maxDepth, pl, root, p) == FindFrom(t, maxDepth, pl, w, p)
    decreases t[w].depth
  {
    if w != root {
      var up := t[w].parent;
      assert ParentOK(t, w) && KidsOK(t, up, maxDepth);
      assert PlaceOK(pl[up]);
      OnlyFirstHit(pl, t[up].kids, w, p);
      SearchPasses(t, maxDepth, pl, root, up, p);
    } else {
      assert FirstHit(pl, [root], p) == root;
    }
  }

  /** A pixel is visible as part of a window exactly when the search from the root
      finds that window. */
  lemma {:induction false} VisibleIffFound(t: Tree, maxDepth: nat, pl: Places, root: Window, w: Window, p: Pixel)
    requires TreeOK(t, root, maxDepth) && PlacesOK(t, pl) && w in t
    ensures Vis(t, pl, w, p) <==> Find(t, maxDepth, pl, root, p) == w
  {
    if Vis(t, pl, w, p) {
      SearchPasses(t, maxDepth, pl, root, w, p);
      NoFirstHit(pl, t[w].kids, p);
    }
    if Find(t, maxDepth, pl, root, p) == w {
      assert LeftOf(t, root) == [];
      assert In(t, pl, root, p);
      FoundIsVisible(t, maxDepth, pl, root, p);
    }
  }

  /** No pixel is visible in two windows. */
  lemma {:induction false} VisibleOnce(t: Tree, maxDepth: nat, pl: Places, root: Window, u: Window, w: Window, p: Pixel)
    requires TreeOK(t, root, maxDepth) && PlacesOK(t, pl) && u in t && w in t
    requires Vis(t, pl, u, p) && Vis(t, pl, w, p)
    ensures u == w
  {
    VisibleIffFound(t, maxDepth, pl, root, u, p);
    VisibleIffFound(t, maxDepth, pl, root, w, p);
  }

  /** The visible parts of all windows partition the screen. */
  lemma {:induction false} VisiblePartition(t: Tree, maxDepth: nat, pl: Places, root: Window, p: Pixel)
    requires TreeOK(t, root, maxDepth) && PlacesOK(t, pl) && pl[root].isOpen
    ensures pl[root].pos.Has(p) <==> exists w :: w in t && Vis(t, pl, w, p)
    ensures forall u, w :: u in t && w in t && Vis(t, pl, u, p) && Vis(t, pl, w, p) ==> u == w
  {
    if pl[root].pos.Has(p) {
      assert LeftOf(t, root) == [];
      assert In(t, pl, root, p);
      FoundIsVisible(t, maxDepth, pl, root, p);
    }
    if w :| w in t && Vis(t, pl, w, p) {
      RootAbove(t, maxDepth, root, w);
      InAncestor(t, pl, root, w, p);
    }
    forall u, w | u in t && w in t && Vis(t, pl, u, p) && Vis(t, pl, w, p) ensures u == w {
      VisibleOnce(t, maxDepth, pl, root, u, w, p);
    }
  }

  lemma {:induction false} RootAbove(t: Tree, maxDepth: nat, root: Window, w: Window)
    requires TreeOK(t, root, maxDepth) && w in t
    ensures Above(t, root, w)
    decreases t[w].depth
  {
    if w != root {
      assert ParentOK(t, w) && KidsOK(t, t[w].parent, maxDepth);
      RootAbove(t, maxDepth, root, t[w].parent);
    }
  }
}
