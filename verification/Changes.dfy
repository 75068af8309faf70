/** What one window's change does to the visibility of all the others, and why rebuilding
    only part of the tree is enough. */
module Changes {
  import opened Geometry
  import opened WindowTree
  import opened Orders
  import opened Visibility
  import opened VisibleRects

  /** The lists have the same members, not counting `except`. */
  ghost predicate SameBut(a: seq<Window>, b: seq<Window>, except: seq<Window>) {
    && (forall u :: u in a && u !in except ==> u in b)
    && (forall u :: u in b && u !in except ==> u in a)
  }

  /** The two situations differ only in the subtree of `w` and in the place of `w` among
      its siblings. */
  ghost predicate OnlyDiffersAt(t0: Tree, pl0: Places, t1: Tree, pl1: Places, w: Window) {
    && t0.Keys == t1.Keys == pl0.Keys == pl1.Keys
    && w in t0
    && (forall x :: x in t0 ==> t0[x].parent == t1[x].parent && t0[x].depth == t1[x].depth)
    && (forall x :: x in t0 ==> SameBut(t0[x].kids, t1[x].kids, []))
    && (forall x :: x in t0 && x != w ==> SameBut(LeftOf(t0, x), LeftOf(t1, x), [w]))
    && (forall x :: x in t0 && !Above(t0, w, x) ==> pl0[x] == pl1[x])
  }

  /** `w` is an open sibling on top of `x` and covers `p`. */
  ghost predicate CoveredBy(t: Tree, pl: Places, w: Window, x: Window, p: Pixel)
    requires x in t && w in pl
  {
    w in LeftOf(t, x) && pl[w].isOpen && pl[w].pos.Has(p)
  }

  /** For every window between `x` and the root, `w` covers `p` before if and only if it
      does afterwards. */
  ghost predicate CoverKept(t0: Tree, pl0: Places, t1: Tree, pl1: Places, w: Window, x: Window, p: Pixel)
    requires t0.Keys == t1.Keys && w in pl0 && w in pl1
  {
    forall a :: a in t0 && Above(t0, a, x) ==> (CoveredBy(t0, pl0, w, a, p) <==> CoveredBy(t1, pl1, w, a, p))
  }

  lemma {:induction false} LeftMembers(t: Tree, maxDepth: nat, x: Window, u: Window)
    requires Shape(t, maxDepth) && x in t && u in LeftOf(t, x)
    ensures HasParent(t, x) && u in t && u != x && t[u].parent == t[x].parent && t[u].depth == t[x].depth
  {
    var up := t[x].parent;
    assert KidsOK(t, up, maxDepth) && ParentOK(t, x);
    var i :| 0 <= i < |t[up].kids| && t[up].kids[i] == x;
    SplitAt(t[up].kids, i);
  }

  /** Siblings other than `w` of a window outside the subtree of `w` are outside it too. */
  lemma {:induction false} SiblingOutside(t: Tree, maxDepth: nat, w: Window, x: Window, u: Window)
    requires Shape(t, maxDepth) && x in t && u in LeftOf(t, x) && !Above(t, w, x) && u != w
    ensures u in t && !Above(t, w, u)
  {
    LeftMembers(t, maxDepth, x, u);
  }

  lemma {:induction false} CoversSame(t0: Tree, maxDepth: nat, pl0: Places, t1: Tree, pl1: Places, w: Window, a: Window, p: Pixel)
    requires Shape(t0, maxDepth) && OnlyDiffersAt(t0, pl0, t1, pl1, w)
    requires a in t0 && !Above(t0, w, a)
    requires CoveredBy(t0, pl0, w, a, p) <==> CoveredBy(t1, pl1, w, a, p)
    ensures OpenCovers(pl0, LeftOf(t0, a), p) <==> OpenCovers(pl1, LeftOf(t1, a), p)
  {
    forall u | u != w && u in LeftOf(t0, a) ensures u in t0 && pl0[u] == pl1[u] {
      SiblingOutside(t0, maxDepth, w, a, u);
    }
    assert Above(t0, w, w);
    assert SameBut(LeftOf(t0, a), LeftOf(t1, a), [w]);
  }

  lemma {:induction false} InSame(t0: Tree, maxDepth: nat, pl0: Places, t1: Tree, pl1: Places, w: Window, x: Window, p: Pixel)
    requires Shape(t0, maxDepth) && OnlyDiffersAt(t0, pl0, t1, pl1, w)
    requires x in t0 && !Above(t0, w, x) && CoverKept(t0, pl0, t1, pl1, w, x, p)
    ensures AllOpen(t0, pl0, x) <==> AllOpen(t1, pl1, x)
    ensures Reach(t0, pl0, x, p) <==> Reach(t1, pl1, x, p)
    ensures In(t0, pl0, x, p) <==> In(t1, pl1, x, p)
    decreases t0[x].depth
  {
    assert Above(t0, x, x);
    CoversSame(t0, maxDepth, pl0, t1, pl1, w, x, p);
    assert HasParent(t0, x) <==> HasParent(t1, x);
    if HasParent(t0, x) {
      var up := t0[x].parent;
      assert !Above(t0, w, up);
      forall a | a in t0 && Above(t0, a, up) ensures Above(t0, a, x) {}
      InSame(t0, maxDepth, pl0, t1, pl1, w, up, p);
    }
  }

  /** Outside the subtree of `w`, a pixel changes hands only if `w` covers it on the way up
      or, for the parent, as a child. */
  lemma {:induction false} VisSame(t0: Tree, maxDepth: nat, pl0: Places, t1: Tree, pl1: Places, w: Window, x: Window, p: Pixel)
    requires Shape(t0, maxDepth) && OnlyDiffersAt(t0, pl0, t1, pl1, w)
    requires x in t0 && !Above(t0, w, x) && CoverKept(t0, pl0, t1, pl1, w, x, p)
    requires t0[w].parent == x ==> ((pl0[w].isOpen && pl0[w].pos.Has(p)) <==> (pl1[w].isOpen && pl1[w].pos.Has(p)))
    ensures Vis(t0, pl0, x, p) <==> Vis(t1, pl1, x, p)
  {
    InSame(t0, maxDepth, pl0, t1, pl1, w, x, p);
    assert KidsOK(t0, x, maxDepth);
    forall k | k in t0[x].kids && k != w ensures k in t0 && pl0[k] == pl1[k] {
      KidHasParent(t0, maxDepth, x, k);
    }
    assert w in t0[x].kids ==> t0[w].parent == x;
    assert SameBut(t0[x].kids, t1[x].kids, []);
  }

  /** The rectangles `rs` contain every pixel that `w` covers before or afterwards. */
  ghost predicate Bounds(pl0: Places, pl1: Places, w: Window, rs: seq<Rect>)
    requires w in pl0 && w in pl1
  {
    forall p :: (pl0[w].isOpen && pl0[w].pos.Has(p)) || (pl1[w].isOpen && pl1[w].pos.Has(p)) ==> Covers(rs, p)
  }

  /** window_rebuild_recs finds an intersection. */
  ghost predicate Touches(rs: seq<Rect>, r: Rect) {
    exists s :: s in rs && Intersects(r, s)
  }

  lemma {:induction false} UntouchedApart(rs: seq<Rect>, r: Rect, p: Pixel)
    requires !Touches(rs, r) && r.Has(p)
    ensures !Covers(rs, p)
  {
    if s :| s in rs && s.Has(p) { IntersectsMeaning(r, s); }
  }

  /** A window outside the subtree of `w` keeps its visible pixels if it, or a window above
      it, is open and away from all the changed rectangles. */
  lemma {:induction false} VisAway(t0: Tree, maxDepth: nat, pl0: Places, t1: Tree, pl1: Places, w: Window, rs: seq<Rect>, a: Window, x: Window, p: Pixel)
    requires Shape(t0, maxDepth) && OnlyDiffersAt(t0, pl0, t1, pl1, w) && Bounds(pl0, pl1, w, rs)
    requires PlacesOK(t0, pl0) && PlacesOK(t1, pl1)
    requires x in t0 && !Above(t0, w, x) && Above(t0, a, x) && a in pl1 && !Touches(rs, pl1[a].pos)
    ensures Vis(t0, pl0, x, p) <==> Vis(t1, pl1, x, p)
  {
    if Covers(rs, p) {
      AboveSame(t0, t1, a, x);
      if Above(t0, w, a) { AboveTrans(t0, w, a, x); }
      assert pl0[a] == pl1[a];
      if Vis(t0, pl0, x, p) { InAncestor(t0, pl0, a, x, p); UntouchedApart(rs, pl1[a].pos, p); }
      if Vis(t1, pl1, x, p) { InAncestor(t1, pl1, a, x, p); UntouchedApart(rs, pl1[a].pos, p); }
    } else {
      VisSame(t0, maxDepth, pl0, t1, pl1, w, x, p);
    }
  }

  lemma {:induction false} AboveSame(t0: Tree, t1: Tree, a: Window, x: Window)
    requires t0.Keys == t1.Keys
    requires forall y :: y in t0 ==> t0[y].parent == t1[y].parent && t0[y].depth == t1[y].depth
    ensures Above(t0, a, x) <==> Above(t1, a, x)
    decreases if x in t0 then t0[x].depth else 0
  {
    if x in t0 && HasParent(t0, x) { AboveSame(t0, t1, a, t0[x].parent); }
  }

  /** The invariant of one window carries over when neither its pixels nor its flags change. */
  lemma {:induction false} ShownKept(t0: Tree, pl0: Places, t1: Tree, pl1: Places, x: Window, s: Shown)
    requires x in t0 && x in pl0 && x in t1 && x in pl1 && ShownOK(t0, pl0, x, s)
    requires pl0[x].isOpen == pl1[x].isOpen && pl0[x].pos == pl1[x].pos
    requires forall p :: Vis(t0, pl0, x, p) <==> Vis(t1, pl1, x, p)
    ensures ShownOK(t1, pl1, x, s)
  {
    if pl0[x].isOpen {
      if p :| pl0[x].pos.Has(p) && !Vis(t0, pl0, x, p) { assert !Vis(t1, pl1, x, p); }
      if p :| pl1[x].pos.Has(p) && !Vis(t1, pl1, x, p) { assert !Vis(t0, pl0, x, p); }
    }
  }

  /** A window of which nothing is visible needs an empty list and, if open, the flag. */
  lemma {:induction false} ShownNothing(t: Tree, pl: Places, x: Window, s: Shown)
    requires PlacesOK(t, pl) && x in t && s.recs == [] && (pl[x].isOpen ==> s.hidden)
    requires forall p :: !Vis(t, pl, x, p)
    ensures ShownOK(t, pl, x, s)
  {
    assert PlaceOK(pl[x]);
    assert pl[x].pos.Has(Pixel(pl[x].pos.x0, pl[x].pos.y0));
  }

  lemma {:induction false} NothingShown(t: Tree, pl: Places, x: Window, s: Shown)
    requires PlacesOK(t, pl) && x in t && ShownOK(t, pl, x, s) && forall p :: !Vis(t, pl, x, p)
    ensures s.recs == [] && (pl[x].isOpen ==> s.hidden)
  {
    if s.recs != [] {
      var r := s.recs[0];
      assert r in s.recs && r.Has(Pixel(r.x0, r.y0));
      assert Covers(s.recs, Pixel(r.x0, r.y0));
    }
    assert PlaceOK(pl[x]);
    assert pl[x].pos.Has(Pixel(pl[x].pos.x0, pl[x].pos.y0));
  }

  // ----- The rebuilding traversal -----

  /** The windows at which the rebuilding traversal turns back. */
  ghost function Cut(pl: Places, rs: seq<Rect>): set<Window> {
    set w | w in pl && pl[w].isOpen && !Touches(rs, pl[w].pos)
  }

  /** window_rebuild_recs rebuilds `x` when it visits it. */
  ghost predicate Hit(pl: Places, rs: seq<Rect>, x: Window) {
    x in pl && pl[x].isOpen && Touches(rs, pl[x].pos)
  }

  /** `sh1` is `sh0` with the hit windows among the visited ones rebuilt. */
  ghost predicate Rebuilt(t: Tree, pl: Places, rs: seq<Rect>, visited: seq<Window>, sh0: map<Window, Shown>, sh1: map<Window, Shown>) {
    && t.Keys == pl.Keys == sh0.Keys == sh1.Keys
    && forall x :: x in t ==> sh1[x] == if x in visited && Hit(pl, rs, x) then Build(t, pl, x) else sh0[x]
  }

  /** Why a window below `top` was not rebuilt: it is closed, or it or a window between it
      and `top` is open and away from the rectangles. */
  lemma {:induction false} Skipped(t: Tree, maxDepth: nat, pl: Places, rs: seq<Rect>, top: Window, x: Window) returns (a: Window)
    requires Shape(t, maxDepth) && t.Keys == pl.Keys && top in t && Above(t, top, x) && pl[x].isOpen
    requires !(x in Pre(t, maxDepth, Cut(pl, rs), top) && Hit(pl, rs, x))
    ensures a in pl && pl[a].isOpen && !Touches(rs, pl[a].pos) && Above(t, top, a) && Above(t, a, x)
  {
    if x in Pre(t, maxDepth, Cut(pl, rs), top) {
      a := x;
      assert Above(t, x, x);
    } else {
      a := PreMissing(t, maxDepth, Cut(pl, rs), top, x);
    }
  }

  ghost predicate AllShownOK(t: Tree, pl: Places, sh: map<Window, Shown>) {
    t.Keys == pl.Keys == sh.Keys && forall x {:trigger ShownOK(t, pl, x, sh[x])} :: x in t ==> ShownOK(t, pl, x, sh[x])
  }
}
