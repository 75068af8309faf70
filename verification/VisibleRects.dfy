/** window_build_recs (server/window.c:314-401): the list of visible rectangles and the
    is_hidden flag, and their meaning. */
module VisibleRects {
  import opened Geometry
  import opened WindowTree
  import opened Visibility

  /** vis_recs and is_hidden */
  datatype Shown = Shown(recs: seq<Rect>, hidden: bool) {
    /** Cut the list and record whether that removed anything. */
    function Apply(c: Cutter): Shown {
      var (r, cut) := c.All(recs, [], false);
      Shown(r, hidden || cut)
    }
  }

  /** Subtract the open windows of the list, last one first. */
  ghost function SubtractLeft(pl: Places, list: seq<Window>, s: Shown): Shown {
    if list == [] then s
    else
      var u := list[|list| - 1];
      SubtractLeft(pl, list[..|list| - 1],
                   if u in pl && pl[u].isOpen then s.Apply(Without(pl[u].pos)) else s)
  }

  /** The walk from `w` up to the root. */
  ghost function WalkUp(t: Tree, pl: Places, w: Window, s: Shown): Shown
    requires w in t
    decreases t[w].depth
  {
    var s' := SubtractLeft(pl, LeftOf(t, w), s);
    if !HasParent(t, w) then s'
    else
      var up := t[w].parent;
      WalkUp(t, pl, up, if up in pl && pl[up].isOpen then s'.Apply(Within(pl[up].work)) else s')
  }

  /** Subtract the open children, clipped to the working area `work`, first one first. */
  ghost function SubtractKids(pl: Places, list: seq<Window>, work: Rect, s: Shown): Shown {
    if list == [] then s
    else
      var u := list[0];
      SubtractKids(pl, list[1..], work,
                   if u in pl && pl[u].isOpen && Intersects(pl[u].pos, work)
                   then s.Apply(Without(Common(pl[u].pos, work))) else s)
  }

  /** What window_build_recs stores in an open window. */
  ghost function Build(t: Tree, pl: Places, w: Window): Shown
    requires w in t && w in pl
  {
    if HasParent(t, w) && !AllOpen(t, pl, t[w].parent) then Shown([], true)
    else SubtractKids(pl, t[w].kids, pl[w].work, WalkUp(t, pl, w, Shown([pl[w].pos], false)))
  }

  // ----- The pixels of the list -----

  ghost predicate Neat(s: Shown) {
    AllPositive(s.recs) && Disjoint(s.recs)
  }

  /** All that clients can be expected to see to: no size is negative. */
  ghost predicate SizesOK(t: Tree, pl: Places) {
    pl.Keys == t.Keys && forall w :: w in pl ==> pl[w].pos.Proper() && pl[w].work.Proper()
  }

  lemma {:induction false} PlacesSizes(t: Tree, pl: Places)
    requires PlacesOK(t, pl)
    ensures SizesOK(t, pl)
  {
    forall w | w in pl ensures pl[w].pos.Proper() && pl[w].work.Proper() { assert PlaceOK(pl[w]); }
  }

  /** `to` is `from` restricted to the pixels that `keep` accepts; `solid` says that only
      rectangles with pixels were used for that. */
  ghost predicate Narrowed(from: Shown, to: Shown, solid: bool, keep: Pixel -> bool) {
    && AllProper(to.recs) && Disjoint(to.recs)
    && (forall p :: Covers(to.recs, p) <==> Covers(from.recs, p) && keep(p))
    && (solid && AllPositive(from.recs) ==> AllPositive(to.recs))
  }

  lemma {:induction false} NarrowedTwice(a: Shown, b: Shown, c: Shown, solid: bool, k1: Pixel -> bool, k2: Pixel -> bool, k: Pixel -> bool)
    requires Narrowed(a, b, solid, k1) && Narrowed(b, c, solid, k2)
    requires forall p :: k(p) <==> k1(p) && k2(p)
    ensures Narrowed(a, c, solid, k)
  {
    hide Disjoint, AllProper, AllPositive, Covers;
  }

  lemma {:induction false} ApplyNarrows(s: Shown, c: Cutter, solid: bool, k: Pixel -> bool)
    requires AllProper(s.recs) && Disjoint(s.recs) && c.b.Proper() && (solid ==> c.b.Positive()) && forall p :: k(p) <==> c.Keeps(p)
    ensures Narrowed(s, s.Apply(c), solid, k)
  {
    assert s.recs + [] == s.recs;
    AllMeaning(c, s.recs, [], false);
  }

  lemma {:induction false} SubtractLeftMeaning(t: Tree, pl: Places, list: seq<Window>, s: Shown, solid: bool)
    requires SizesOK(t, pl) && (solid ==> PlacesOK(t, pl)) && AllProper(s.recs) && Disjoint(s.recs)
    ensures Narrowed(s, SubtractLeft(pl, list, s), solid, p => !OpenCovers(pl, list, p))
  {
    if list != [] {
      var n := |list| - 1;
      var u := list[n];
      assert list == list[..n] + [u];
      if u in pl && pl[u].isOpen {
        assert solid ==> PlaceOK(pl[u]);
        var s' := s.Apply(Without(pl[u].pos));
        ApplyNarrows(s, Without(pl[u].pos), solid, p => !pl[u].pos.Has(p));
        SubtractLeftMeaning(t, pl, list[..n], s', solid);
        NarrowedTwice(s, s', SubtractLeft(pl, list, s), solid, p => !pl[u].pos.Has(p),
                      p => !OpenCovers(pl, list[..n], p), p => !OpenCovers(pl, list, p));
      } else {
        SubtractLeftMeaning(t, pl, list[..n], s, solid);
        assert forall p :: OpenCovers(pl, list, p) <==> OpenCovers(pl, list[..n], p);
      }
    }
  }

  lemma {:induction false} SubtractKidsMeaning(t: Tree, pl: Places, list: seq<Window>, work: Rect, s: Shown, solid: bool)
    requires SizesOK(t, pl) && AllProper(s.recs) && Disjoint(s.recs)
    ensures Narrowed(s, SubtractKids(pl, list, work, s), solid, p => !(work.Has(p) && OpenCovers(pl, list, p)))
  {
    if list != [] {
      var u := list[0];
      assert list == [u] + list[1..];
      if u in pl && pl[u].isOpen {
        IntersectsMeaning(pl[u].pos, work);
      }
      if u in pl && pl[u].isOpen && Intersects(pl[u].pos, work) {
        var both := Common(pl[u].pos, work);
        var s' := s.Apply(Without(both));
        ApplyNarrows(s, Without(both), solid, p => !both.Has(p));
        SubtractKidsMeaning(t, pl, list[1..], work, s', solid);
        NarrowedTwice(s, s', SubtractKids(pl, list, work, s), solid, p => !both.Has(p),
                      p => !(work.Has(p) && OpenCovers(pl, list[1..], p)), p => !(work.Has(p) && OpenCovers(pl, list, p)));
      } else {
        SubtractKidsMeaning(t, pl, list[1..], work, s, solid);
        assert forall p :: work.Has(p) ==> (OpenCovers(pl, list, p) <==> OpenCovers(pl, list[1..], p));
      }
    }
  }

  lemma {:induction false} WalkUpMeaning(t: Tree, pl: Places, w: Window, s: Shown, solid: bool)
    requires SizesOK(t, pl) && (solid ==> PlacesOK(t, pl)) && AllProper(s.recs) && Disjoint(s.recs)
    requires w in t && (HasParent(t, w) ==> AllOpen(t, pl, t[w].parent))
    ensures Narrowed(s, WalkUp(t, pl, w, s), solid, p => Reach(t, pl, w, p))
    decreases t[w].depth
  {
    var left := SubtractLeft(pl, LeftOf(t, w), s);
    SubtractLeftMeaning(t, pl, LeftOf(t, w), s, solid);
    if HasParent(t, w) {
      var up := t[w].parent;
      var clipped := left.Apply(Within(pl[up].work));
      assert solid ==> PlaceOK(pl[up]);
      ApplyNarrows(left, Within(pl[up].work), solid, p => pl[up].work.Has(p));
      NarrowedTwice(s, left, clipped, solid, p => !OpenCovers(pl, LeftOf(t, w), p), p => pl[up].work.Has(p),
                    p => !OpenCovers(pl, LeftOf(t, w), p) && pl[up].work.Has(p));
      WalkUpMeaning(t, pl, up, clipped, solid);
      NarrowedTwice(s, clipped, WalkUp(t, pl, w, s), solid, p => !OpenCovers(pl, LeftOf(t, w), p) && pl[up].work.Has(p),
                    p => Reach(t, pl, up, p), p => Reach(t, pl, w, p));
    }
  }

  /** Whatever the sizes, the list stands for exactly the visible pixels. */
  lemma {:induction false} BuildPixels(t: Tree, pl: Places, w: Window, solid: bool)
    requires SizesOK(t, pl) && (solid ==> PlacesOK(t, pl)) && w in t && pl[w].isOpen
    ensures var b := Build(t, pl, w);
            Disjoint(b.recs) && (solid ==> AllPositive(b.recs)) && forall p :: Covers(b.recs, p) <==> Vis(t, pl, w, p)
  {
    if !HasParent(t, w) || AllOpen(t, pl, t[w].parent) {
      assert AllOpen(t, pl, w) && (solid ==> PlaceOK(pl[w]));
      var s0 := Shown([pl[w].pos], false);
      var s1, s2 := WalkUp(t, pl, w, s0), Build(t, pl, w);
      assert forall p :: Covers(s0.recs, p) <==> pl[w].pos.Has(p);
      WalkUpMeaning(t, pl, w, s0, solid);
      SubtractKidsMeaning(t, pl, t[w].kids, pl[w].work, s1, solid);
      var k: Pixel -> bool := p => Reach(t, pl, w, p) && !KidCovers(t, pl, w, p);
      NarrowedTwice(s0, s1, s2, solid, p => Reach(t, pl, w, p),
                    p => !(pl[w].work.Has(p) && OpenCovers(pl, t[w].kids, p)), k);
      assert forall p :: pl[w].pos.Has(p) ==> (k(p) <==> Vis(t, pl, w, p));
    }
  }

  // ----- The flag -----

  /** Until the first cut the list is the window itself. */
  ghost predicate Uncut(s: Shown, pos: Rect) {
    s.hidden || s.recs == [pos]
  }

  /** The first rectangle that meets the window's extent, or does not contain it, raises the flag. */
  lemma {:induction false} ApplyFlag(s: Shown, c: Cutter, pos: Rect)
    requires Uncut(s, pos) && pos.Positive() && c.b.Proper()
    ensures Uncut(s.Apply(c), pos)
    ensures s.Apply(c).hidden <==> s.hidden || (match c case Without(b) => Overlaps(pos, b) case Within(b) => !Contains(b, pos))
  {
    if !s.hidden {
      var (done, cut) := c.One(pos, []);
      assert c.All([pos], [], false) == c.All([], done, cut);
      match c
      case Without(b) =>
        PiecesCut(pos, b);
        assert [pos][1..] == [] && [pos] + [] == [pos] && Prepend([pos], []) == [pos];
      case Within(b) => assert [Common(pos, b)] + [] == [Common(pos, b)];
    }
  }

  /** The extent of an open window of the list meets that of `pos`. */
  ghost predicate OpenOverlaps(pl: Places, list: seq<Window>, pos: Rect) {
    exists u :: u in list && u in pl && pl[u].isOpen && Overlaps(pos, pl[u].pos)
  }

  ghost predicate Crossed(t: Tree, pl: Places, pos: Rect, w: Window)
    requires w in t
    decreases t[w].depth
  {
    || OpenOverlaps(pl, LeftOf(t, w), pos)
    || (HasParent(t, w) && (var up := t[w].parent; up in pl && (!Contains(pl[up].work, pos) || Crossed(t, pl, pos, up))))
  }

  ghost predicate KidMeets(pl: Places, list: seq<Window>, work: Rect, pos: Rect) {
    exists u :: u in list && u in pl && pl[u].isOpen && Intersects(pl[u].pos, work) && Overlaps(pos, Common(pl[u].pos, work))
  }

  lemma {:induction false} SubtractLeftFlag(t: Tree, pl: Places, list: seq<Window>, s: Shown, pos: Rect)
    requires SizesOK(t, pl) && Uncut(s, pos) && pos.Positive()
    ensures Uncut(SubtractLeft(pl, list, s), pos)
    ensures SubtractLeft(pl, list, s).hidden <==> s.hidden || OpenOverlaps(pl, list, pos)
  {
    hide Uncut;
    if list != [] {
      var n := |list| - 1;
      var u := list[n];
      assert list == list[..n] + [u];
      if u in pl && pl[u].isOpen { ApplyFlag(s, Without(pl[u].pos), pos); }
      SubtractLeftFlag(t, pl, list[..n], if u in pl && pl[u].isOpen then s.Apply(Without(pl[u].pos)) else s, pos);
    }
  }

  lemma {:induction false} SubtractKidsFlag(t: Tree, pl: Places, list: seq<Window>, work: Rect, s: Shown, pos: Rect)
    requires SizesOK(t, pl) && Uncut(s, pos) && pos.Positive()
    ensures SubtractKids(pl, list, work, s).hidden <==> s.hidden || KidMeets(pl, list, work, pos)
  {
    hide Uncut;
    if list != [] {
      var u := list[0];
      assert list == [u] + list[1..];
      var cuts := u in pl && pl[u].isOpen && Intersects(pl[u].pos, work);
      if cuts { ApplyFlag(s, Without(Common(pl[u].pos, work)), pos); }
      SubtractKidsFlag(t, pl, list[1..], work, if cuts then s.Apply(Without(Common(pl[u].pos, work))) else s, pos);
    }
  }

  lemma {:induction false} WalkUpFlag(t: Tree, pl: Places, w: Window, s: Shown, pos: Rect)
    requires SizesOK(t, pl) && Uncut(s, pos) && pos.Positive() && w in t && (HasParent(t, w) ==> AllOpen(t, pl, t[w].parent))
    ensures Uncut(WalkUp(t, pl, w, s), pos)
    ensures WalkUp(t, pl, w, s).hidden <==> s.hidden || Crossed(t, pl, pos, w)
    decreases t[w].depth
  {
    hide Uncut, OpenOverlaps;
    var left := SubtractLeft(pl, LeftOf(t, w), s);
    SubtractLeftFlag(t, pl, LeftOf(t, w), s, pos);
    if HasParent(t, w) {
      var up := t[w].parent;
      ApplyFlag(left, Within(pl[up].work), pos);
      WalkUpFlag(t, pl, up, left.Apply(Within(pl[up].work)), pos);
    }
  }

  /** An open window without pixels, on top of `w` or of one of its ancestors, lies inside
      the extent of `pos`. */
  ghost predicate Grazed(t: Tree, pl: Places, pos: Rect, w: Window)
    requires w in t
    decreases t[w].depth
  {
    || (exists u :: u in LeftOf(t, w) && u in pl && pl[u].isOpen && !pl[u].pos.Positive() && Overlaps(pos, pl[u].pos))
    || (HasParent(t, w) && Grazed(t, pl, pos, t[w].parent))
  }

  /** Apart from such windows, whatever crosses the way up takes pixels away, and conversely. */
  lemma {:induction false} CrossedMeaning(t: Tree, pl: Places, w: Window, pos: Rect)
    requires SizesOK(t, pl) && pos.Positive() && w in t && (HasParent(t, w) ==> AllOpen(t, pl, t[w].parent))
    ensures Crossed(t, pl, pos, w) <==> (exists p :: pos.Has(p) && !Reach(t, pl, w, p)) || Grazed(t, pl, pos, w)
    decreases t[w].depth
  {
    var left := LeftOf(t, w);
    if u :| u in left && u in pl && pl[u].isOpen && Overlaps(pos, pl[u].pos) && pl[u].pos.Positive() { MeetsAt(pl, left, u, pos); }
    if p :| pos.Has(p) && OpenCovers(pl, left, p) { assert OpenOverlaps(pl, left, pos); }
    if HasParent(t, w) {
      var up := t[w].parent;
      CrossedMeaning(t, pl, up, pos);
      if !Contains(pl[up].work, pos) { LostPixel(pl[up].work, pos); }
      if p :| pos.Has(p) && !Reach(t, pl, up, p) { assert !Reach(t, pl, w, p); }
    }
  }

  lemma {:induction false} MeetsAt(pl: Places, list: seq<Window>, u: Window, pos: Rect)
    requires u in list && u in pl && pl[u].isOpen && Overlaps(pos, pl[u].pos) && pos.Positive() && pl[u].pos.Positive()
    ensures exists p :: pos.Has(p) && OpenCovers(pl, list, p)
  {
    var p := Pixel(Common(pos, pl[u].pos).x0, Common(pos, pl[u].pos).y0);
    assert pos.Has(p) && pl[u].pos.Has(p);
  }

  lemma {:induction false} LostPixel(work: Rect, pos: Rect)
    requires pos.Positive() && !Contains(work, pos)
    ensures exists p :: pos.Has(p) && !work.Has(p)
  {
    var p0, p1 := Pixel(pos.x0, pos.y0), Pixel(pos.XR() - 1, pos.YU() - 1);
    assert pos.Has(p0) && pos.Has(p1);
  }

  lemma {:induction false} KidMeetsMeaning(pl: Places, list: seq<Window>, work: Rect, pos: Rect)
    requires pos.Positive()
    ensures KidMeets(pl, list, work, pos) <==> exists p :: pos.Has(p) && work.Has(p) && OpenCovers(pl, list, p)
  {
    if u :| u in list && u in pl && pl[u].isOpen && Intersects(pl[u].pos, work) && Overlaps(pos, Common(pl[u].pos, work)) {
      var both := Common(pl[u].pos, work);
      var p := Pixel(Common(pos, both).x0, Common(pos, both).y0);
      assert pos.Has(p) && work.Has(p) && pl[u].pos.Has(p);
    }
    if p :| pos.Has(p) && work.Has(p) && OpenCovers(pl, list, p) {
      var u :| u in list && u in pl && pl[u].isOpen && pl[u].pos.Has(p);
      assert Intersects(pl[u].pos, work) && Overlaps(pos, Common(pl[u].pos, work));
    }
  }

  /** The flag that window_build_recs computes for a window with pixels: some pixel is not
      visible, or a window without pixels grazes it. */
  lemma {:induction false} BuildFlag(t: Tree, pl: Places, w: Window)
    requires SizesOK(t, pl) && w in t && pl[w].isOpen && pl[w].pos.Positive()
    ensures var pos := pl[w].pos;
            Build(t, pl, w).hidden <==> (exists p :: pos.Has(p) && !Vis(t, pl, w, p)) || Grazed(t, pl, pos, w)
  {
    hide Crossed, Grazed, KidMeets, Reach;
    var pos := pl[w].pos;
    if HasParent(t, w) && !AllOpen(t, pl, t[w].parent) {
      assert pos.Has(Pixel(pos.x0, pos.y0));
    } else {
      assert AllOpen(t, pl, w);
      var s0 := Shown([pos], false);
      WalkUpFlag(t, pl, w, s0, pos);
      SubtractKidsFlag(t, pl, t[w].kids, pl[w].work, WalkUp(t, pl, w, s0), pos);
      CrossedMeaning(t, pl, w, pos);
      KidMeetsMeaning(pl, t[w].kids, pl[w].work, pos);
      if p :| pos.Has(p) && !Reach(t, pl, w, p) { assert !Vis(t, pl, w, p); }
      if p :| pos.Has(p) && pl[w].work.Has(p) && OpenCovers(pl, t[w].kids, p) { assert !Vis(t, pl, w, p); }
    }
  }

  lemma {:induction false} NotGrazed(t: Tree, pl: Places, pos: Rect, w: Window)
    requires PlacesOK(t, pl) && w in t
    ensures !Grazed(t, pl, pos, w)
    decreases t[w].depth
  {
    forall u | u in pl ensures pl[u].pos.Positive() { assert PlaceOK(pl[u]); }
    if HasParent(t, w) { NotGrazed(t, pl, pos, t[w].parent); }
  }

  // ----- The invariant of one window -----

  /** The rectangles are disjoint, non-empty and cover exactly the visible pixels; an open
      window is marked hidden exactly when some of its pixels are not visible. */
  ghost predicate ShownOK(t: Tree, pl: Places, w: Window, s: Shown)
    requires w in t && w in pl
  {
    && Neat(s)
    && (forall p :: Covers(s.recs, p) <==> Vis(t, pl, w, p))
    && (pl[w].isOpen ==> (s.hidden <==> exists p :: pl[w].pos.Has(p) && !Vis(t, pl, w, p)))
  }

  /** window_build_recs establishes it, as long as all windows have pixels. */
  lemma {:induction false} BuildMeaning(t: Tree, pl: Places, w: Window)
    requires PlacesOK(t, pl) && w in t && pl[w].isOpen
    ensures ShownOK(t, pl, w, Build(t, pl, w))
  {
    hide Vis, Build, Grazed;
    assert PlaceOK(pl[w]);
    PlacesSizes(t, pl);
    BuildPixels(t, pl, w, true);
    BuildFlag(t, pl, w);
    NotGrazed(t, pl, pl[w].pos, w);
  }
}
