/** Windows without pixels: createBitmap (server/client_ret.c:40-134) checks no sizes, so a
    client can have a window of width 0.  Once open, it raises the flags of windows below it
    that are visible as a whole. */
module Pixelless {
  import opened Geometry
  import opened WindowTree
  import opened Visibility
  import opened VisibleRects
  import opened Visitors
  import opened Phases

  const ALL := Rect(0, 0, 100, 100)

  /** A border-less window of width 0 on top of a sibling of size 10 by 10. */
  ghost function SliverTree(root: Window, background: Window, u: Window, a: Window): Tree {
    map[root := Node(null, null, null, background, [background], 0),
        background := Node(null, null, root, u, [u, a], 1),
        u := Node(a, null, background, null, [], 2),
        a := Node(null, u, background, null, [], 2)]
  }

  ghost function SliverPlaces(root: Window, background: Window, u: Window, a: Window, isOpen: bool): Places {
    map[root := Place(ALL, ALL, ALL, true), background := Place(ALL, ALL, ALL, true),
        u := Place(Rect(5, 0, 0, 10), Rect(5, 0, 0, 10), Rect(0, 0, 0, 10), isOpen),
        a := Place(Rect(0, 0, 10, 10), Rect(0, 0, 10, 10), Rect(0, 0, 10, 10), true)]
  }

  lemma {:induction false} SliverTreeOK(root: Window, background: Window, u: Window, a: Window)
    requires Distinct([root, background, u, a])
    ensures TreeOK(SliverTree(root, background, u, a), root, 2)
  {
    var all := [root, background, u, a];
    assert all[0] == root && all[1] == background && all[2] == u && all[3] == a;
    var t := SliverTree(root, background, u, a);
    assert KidsOK(t, root, 2) && KidsOK(t, background, 2) && KidsOK(t, u, 2) && KidsOK(t, a, 2);
    assert ParentOK(t, background) && ParentOK(t, u) && ParentOK(t, a);
  }

  lemma {:induction false} SliverFacts(root: Window, background: Window, u: Window, a: Window, isOpen: bool)
    requires Distinct([root, background, u, a])
    ensures var t, pl := SliverTree(root, background, u, a), SliverPlaces(root, background, u, a, isOpen);
            && root != background && root != u && root != a && background != u && background != a && u != a
            && TreeOK(t, root, 2) && SizesOK(t, pl)
            && HasParent(t, a) && HasParent(t, background) && !HasParent(t, root) && t[a].parent == background
            && LeftOf(t, a) == [u] && LeftOf(t, background) == [] && LeftOf(t, root) == []
            && AllOpen(t, pl, a) && AllOpen(t, pl, background) && t[a].kids == []
  {
    var all := [root, background, u, a];
    assert all[0] == root && all[1] == background && all[2] == u && all[3] == a;
    var t, pl := SliverTree(root, background, u, a), SliverPlaces(root, background, u, a, isOpen);
    SliverTreeOK(root, background, u, a);
    hide TreeOK, Shape, KidsOK, ParentOK;
    assert [u, a][1..] == [a] && Before([a], a) == [] && Before([u, a], a) == [u];
    assert AllOpen(t, pl, root);
  }

  /** Every pixel of the lower window is visible, and yet window_build_recs counts it as hidden
      as soon as the upper one is open. */
  lemma {:induction false} SliverHides(root: Window, background: Window, u: Window, a: Window)
    requires Distinct([root, background, u, a])
    ensures var t, pl0, pl := SliverTree(root, background, u, a), SliverPlaces(root, background, u, a, false), SliverPlaces(root, background, u, a, true);
            && (forall p :: pl[a].pos.Has(p) ==> Vis(t, pl0, a, p) && Vis(t, pl, a, p))
            && !Build(t, pl0, a).hidden && Build(t, pl, a).hidden
  {
    hide Vis, Build, TreeOK, AllOpen;
    var t := SliverTree(root, background, u, a);
    SliverVisible(root, background, u, a, false);
    SliverVisible(root, background, u, a, true);
    BuildFlag(t, SliverPlaces(root, background, u, a, false), a);
    BuildFlag(t, SliverPlaces(root, background, u, a, true), a);
  }

  lemma {:induction false} SliverVisible(root: Window, background: Window, u: Window, a: Window, isOpen: bool)
    requires Distinct([root, background, u, a])
    ensures var t, pl := SliverTree(root, background, u, a), SliverPlaces(root, background, u, a, isOpen);
            && SizesOK(t, pl) && a in t && a in pl && (Grazed(t, pl, pl[a].pos, a) <==> isOpen)
            && forall p :: pl[a].pos.Has(p) ==> Vis(t, pl, a, p)
  {
    hide TreeOK, Shape, SliverTree, AllOpen;
    SliverFacts(root, background, u, a, isOpen);
    SliverNodes(root, background, u, a);
    var t, pl := SliverTree(root, background, u, a), SliverPlaces(root, background, u, a, isOpen);
    SliverGrazes(root, background, u, a, isOpen);
    assert pl[background].work == ALL && pl[root].work == ALL && pl[u].pos == Rect(5, 0, 0, 10) && pl[a].pos == Rect(0, 0, 10, 10);
    hide SliverPlaces, LeftOf, HasParent;
    forall p | pl[a].pos.Has(p) ensures Vis(t, pl, a, p) { SliverPixel(t, pl, root, background, u, a, p); }
  }

  lemma {:induction false} SliverPixel(t: Tree, pl: Places, root: Window, background: Window, u: Window, a: Window, p: Pixel)
    requires root in t && background in t && a in t && root in pl && background in pl && u in pl && a in pl
    requires HasParent(t, a) && HasParent(t, background) && !HasParent(t, root) && t[a].parent == background && t[background].parent == root
    requires LeftOf(t, a) == [u] && LeftOf(t, background) == [] && LeftOf(t, root) == [] && t[a].kids == [] && AllOpen(t, pl, a)
    requires pl[root].work.Has(p) && pl[background].work.Has(p) && pl[a].pos.Has(p) && !pl[u].pos.Has(p)
    ensures Vis(t, pl, a, p)
  {
    hide AllOpen;
    assert Reach(t, pl, root, p);
    assert Reach(t, pl, background, p);
  }

  lemma {:induction false} SliverNodes(root: Window, background: Window, u: Window, a: Window)
    requires Distinct([root, background, u, a])
    ensures var t := SliverTree(root, background, u, a);
            root in t && background in t && u in t && a in t && t[a].parent == background && t[background].parent == root && t[root].parent == null
  {
    var all := [root, background, u, a];
    assert all[0] == root && all[1] == background && all[2] == u && all[3] == a;
  }

  lemma {:induction false} SliverGrazes(root: Window, background: Window, u: Window, a: Window, isOpen: bool)
    requires Distinct([root, background, u, a])
    ensures var t, pl := SliverTree(root, background, u, a), SliverPlaces(root, background, u, a, isOpen);
            a in t && a in pl && (Grazed(t, pl, pl[a].pos, a) <==> isOpen)
  {
    hide TreeOK, Shape, SliverTree, AllOpen;
    SliverFacts(root, background, u, a, isOpen);
    SliverNodes(root, background, u, a);
    var t, pl := SliverTree(root, background, u, a), SliverPlaces(root, background, u, a, isOpen);
    assert !Grazed(t, pl, pl[a].pos, root);
    assert !Grazed(t, pl, pl[a].pos, background);
    assert u in [u];
  }

  /** window_open, window_close and window_move of such a window rebuild no list at all, for
      rect_intersect finds nothing. */
  lemma {:induction false} SliverRebuildsNothing(s: State, rs: seq<Rect>, list: seq<Window>)
    requires s.Domains() && forall r :: r in rs ==> !r.Positive()
    ensures Fold(s, RebuildRecs(rs), list) == s
    decreases |list|
  {
    hide Fold;
    if list == [] {
      FoldNothing(s, RebuildRecs(rs));
    } else {
      var n := |list| - 1;
      assert list == list[..n] + [list[n]];
      SliverRebuildsNothing(s, rs, list[..n]);
      FoldStep(s, RebuildRecs(rs), list[..n], list[n]);
    }
  }

  /** So after opening the upper window the lower one keeps its flag, and a fresh computation
      would give another one. */
  lemma {:induction false} SliverDiffers(s: State, root: Window, background: Window, u: Window, a: Window)
    requires Distinct([root, background, u, a]) && s.Domains() && s.tree == SliverTree(root, background, u, a)
    requires s.place == SliverPlaces(root, background, u, a, true)
    requires s.shown[a] == Build(s.tree, SliverPlaces(root, background, u, a, false), a)
    ensures Shape(s.tree, 2)
    ensures var s' := Fold(s, RebuildRecs([s.place[u].pos]), HereAndParent(s.tree, 2, {}, u));
            !s'.shown[a].hidden && Build(s'.tree, s'.place, a).hidden
  {
    hide Fold, Build, Vis;
    SliverFacts(root, background, u, a, true);
    SliverHides(root, background, u, a);
    SliverRebuildsNothing(s, [s.place[u].pos], HereAndParent(s.tree, 2, {}, u));
  }
}
