/** Backing store: where the content of a window is kept, and what the visitors that save,
    redraw and rebuild do to it (server/window.c:630-768). */
module Backing {
  import opened Geometry
  import opened WindowTree
  import opened Visibility
  import opened VisibleRects
  import opened Changes
  import opened Visitors

  /** The pixel of the window's content that belongs at screen position `p`. */
  ghost function ContentAt(s: State, x: Window, p: Pixel): Color
    requires s.Domains() && x in s.tree
  {
    s.content[x](p.Plus(-s.place[x].pos.x0, -s.place[x].pos.y0))
  }

  ghost function BitmapAt(s: State, x: Window, p: Pixel): Color
    requires s.Domains() && x in s.tree
  {
    s.store[x].bitmap(p.Plus(-s.place[x].pos.x0, -s.place[x].pos.y0))
  }

  /** The bitmap holds the whole content. */
  ghost predicate BitmapWhole(s: State, x: Window)
    requires s.Domains() && x in s.tree
  {
    forall p :: s.place[x].pos.Has(p) ==> BitmapAt(s, x, p) == ContentAt(s, x, p)
  }

  /** The screen shows the content wherever the window is visible, except perhaps in the
      dirty rectangle. */
  ghost predicate ScreenFresh(s: State, x: Window)
    requires s.Domains() && x in s.tree
  {
    s.place[x].isOpen ==>
      forall p :: Covers(s.shown[x].recs, p) && !DirtyOnScreen(s, x).Has(p) ==> s.screen(p) == ContentAt(s, x, p)
  }

  /** The backing-store protocol for one window: the bitmap is whole unless is_dirty is set;
      that happens only while the window is unhidden, and then the screen holds the content;
      an unhidden window has no pixels waiting to be redrawn. */
  ghost predicate Coherent(s: State, x: Window)
    requires s.Domains() && x in s.tree
  {
    && (!s.store[x].isDirty ==> BitmapWhole(s, x))
    && (s.store[x].isDirty ==> s.place[x].isOpen && !s.shown[x].hidden)
    && (s.place[x].isOpen && !s.shown[x].hidden ==> !s.store[x].dirty.Positive())
    && ScreenFresh(s, x)
  }

  /** No pixel belongs to the rectangle lists of two windows. */
  ghost predicate Apart(s: State)
    requires s.Domains()
  {
    forall u, w, p :: u in s.tree && w in s.tree && Covers(s.shown[u].recs, p) && Covers(s.shown[w].recs, p) ==> u == w
  }

  lemma {:induction false} ShownApart(s: State, maxDepth: nat, root: Window)
    requires s.Domains() && TreeOK(s.tree, root, maxDepth) && PlacesOK(s.tree, s.place) && AllShownOK(s.tree, s.place, s.shown)
    ensures Apart(s)
  {
    forall u, w, p | u in s.tree && w in s.tree && Covers(s.shown[u].recs, p) && Covers(s.shown[w].recs, p) ensures u == w {
      assert ShownOK(s.tree, s.place, u, s.shown[u]) && ShownOK(s.tree, s.place, w, s.shown[w]);
      VisibleOnce(s.tree, maxDepth, s.place, root, u, w, p);
    }
  }

  /** An unhidden open window is covered by its rectangles. */
  ghost predicate FullyShown(s: State, x: Window)
    requires s.Domains() && x in s.tree
  {
    s.place[x].isOpen && !s.shown[x].hidden ==> forall p :: s.place[x].pos.Has(p) ==> Covers(s.shown[x].recs, p)
  }

  lemma {:induction false} ShownFully(s: State, x: Window)
    requires s.Domains() && x in s.tree && ShownOK(s.tree, s.place, x, s.shown[x])
    ensures FullyShown(s, x)
    ensures forall p :: Covers(s.shown[x].recs, p) ==> s.place[x].pos.Has(p)
  {
  }

  // ----- One window -----

  /** Saving copies exactly the visible pixels. */
  lemma {:induction false} SaveRecsAt(screen: Picture, bitmap: Picture, pos: Rect, recs: seq<Rect>, p: Pixel)
    ensures SaveRecs(screen, bitmap, pos, recs)(p.Plus(-pos.x0, -pos.y0))
            == if Covers(recs, p) then screen(p) else bitmap(p.Plus(-pos.x0, -pos.y0))
    decreases |recs|
  {
    if recs != [] {
      var n := |recs| - 1;
      var q := p.Plus(-pos.x0, -pos.y0);
      SaveRecsAt(screen, bitmap, pos, recs[..n], p);
      CoversLast(recs, p);
      assert q.Plus(pos.x0, pos.y0) == p;
    }
  }

  lemma {:induction false} CoversLast(recs: seq<Rect>, p: Pixel)
    requires recs != []
    ensures Covers(recs, p) <==> Covers(recs[..|recs| - 1], p) || recs[|recs| - 1].Has(p)
  {
    var n := |recs| - 1;
    assert recs == recs[..n] + [recs[n]];
    if recs[n].Has(p) { assert recs[n] in recs; }
    if Covers(recs, p) {
      var r :| r in recs && r.Has(p);
      assert r in recs[..n] || r == recs[n];
    }
  }

  /** Redrawing copies exactly the visible pixels inside `r` ... */
  lemma {:induction false} RedrawRecsAt(screen: Picture, bitmap: Picture, pos: Rect, recs: seq<Rect>, r: Rect, p: Pixel)
    ensures RedrawRecs(screen, bitmap, pos, recs, r)(p)
            == if Covers(recs, p) && r.Has(p) then bitmap(p.Plus(-pos.x0, -pos.y0)) else screen(p)
    decreases |recs|
  {
    if recs != [] {
      var n := |recs| - 1;
      RedrawRecsAt(screen, bitmap, pos, recs[..n], r, p);
      CoversLast(recs, p);
      IntersectsMeaning(recs[n], r);
    }
  }

  /** ... and inside the rectangles `rs`. */
  lemma {:induction false} RedrawListAt(screen: Picture, bitmap: Picture, pos: Rect, recs: seq<Rect>, rs: seq<Rect>, p: Pixel)
    ensures RedrawList(screen, bitmap, pos, recs, rs)(p)
            == if Covers(recs, p) && Covers(rs, p) then bitmap(p.Plus(-pos.x0, -pos.y0)) else screen(p)
    decreases |rs|
  {
    if rs != [] {
      var n := |rs| - 1;
      RedrawListAt(screen, bitmap, pos, recs, rs[..n], p);
      RedrawRecsAt(RedrawList(screen, bitmap, pos, recs, rs[..n]), bitmap, pos, recs, rs[n], p);
      CoversLast(rs, p);
    }
  }

  /** After window_save_contents the bitmap is whole, or the window is still dirty and away
      from the rectangle. */
  lemma {:induction false} SaveMeaning(s: State, x: Window, r: Rect)
    requires s.Domains() && x in s.tree && Coherent(s, x) && FullyShown(s, x)
    ensures var s' := Save(s, x, r);
            && (!s'.store[x].isDirty ==> BitmapWhole(s', x))
            && (s'.store[x].isDirty ==> s.store[x].isDirty && !Intersects(s.place[x].pos, r))
            && s'.store[x].dirty == s.store[x].dirty
            && (!s.store[x].isDirty ==> !s'.store[x].isDirty)
  {
    var s' := Save(s, x, r);
    if s.place[x].isOpen && s.store[x].isDirty && !s.shown[x].hidden && Intersects(s.place[x].pos, r) {
      forall p | s.place[x].pos.Has(p) ensures BitmapAt(s', x, p) == ContentAt(s', x, p) {
        SaveRecsAt(s.screen, s.store[x].bitmap, s.place[x].pos, s.shown[x].recs, p);
      }
    }
  }

  /** window_redraw_contents_rect writes the pixel `p`. */
  ghost predicate RedrawHits(s: State, x: Window, rs: seq<Rect>, p: Pixel)
    requires s.Domains() && x in s.tree
  {
    s.place[x].isOpen && Covers(s.shown[x].recs, p) && (Covers(rs, p) || (MustFlush(s, x) && DirtyOnScreen(s, x).Has(p)))
  }

  lemma {:induction false} RedrawMeaning(s: State, x: Window, rs: seq<Rect>, p: Pixel)
    requires s.Domains() && x in s.tree
    ensures Redraw(s, x, rs).screen(p) == if RedrawHits(s, x, rs, p) then BitmapAt(s, x, p) else s.screen(p)
    ensures Redraw(s, x, rs).store[x].bitmap == s.store[x].bitmap && Redraw(s, x, rs).store[x].isDirty == s.store[x].isDirty
    ensures s.place[x].isOpen && MustFlush(s, x) ==> !Redraw(s, x, rs).store[x].dirty.Positive()
    ensures !(s.place[x].isOpen && MustFlush(s, x)) ==> Redraw(s, x, rs).store[x].dirty == s.store[x].dirty
  {
    if s.place[x].isOpen {
      var f := Flush(s, x);
      RedrawListAt(f.screen, f.store[x].bitmap, f.place[x].pos, f.shown[x].recs, rs, p);
      if MustFlush(s, x) {
        RedrawRecsAt(s.screen, s.store[x].bitmap, s.place[x].pos, s.shown[x].recs, DirtyOnScreen(s, x), p);
      }
    }
  }

  // ----- A whole traversal -----

  /** The components that a visitor leaves alone. */
  ghost predicate Framed(s: State, s': State, v: Visitor) {
    && s'.tree == s.tree && s'.content == s.content
    && (!v.MoveOne? && !v.CloseOne? ==> s'.place == s.place)
    && (!v.MoveRecs? && !v.RebuildRecs? && !v.CloseOne? ==> s'.shown == s.shown)
    && (v.MoveOne? || v.MoveRecs? || v.RebuildRecs? ==> s'.store == s.store)
    && (!v.RedrawContents? && !v.RedrawIfDirty? ==> s'.screen == s.screen)
  }

  lemma {:induction false} ApplyFrame(s: State, v: Visitor, w: Window)
    ensures Framed(s, Apply(s, v, w), v)
  {
  }

  lemma {:induction false} FoldFrame(s: State, v: Visitor, list: seq<Window>)
    ensures Framed(s, Fold(s, v, list), v)
    decreases |list|
  {
    if list != [] {
      var n := |list| - 1;
      FoldFrame(s, v, list[..n]);
      ApplyFrame(Fold(s, v, list[..n]), v, list[n]);
    }
  }

  /** The fields of one window agree. */
  ghost predicate SameAt(s: State, s': State, x: Window)
    requires s.Domains() && s'.Domains() && x in s.tree && x in s'.tree
  {
    s'.place[x] == s.place[x] && s'.shown[x] == s.shown[x] && s'.store[x] == s.store[x]
  }

  /** A window that is not in the list keeps its fields. */
  lemma {:induction false} FoldElsewhere(s: State, v: Visitor, list: seq<Window>, x: Window)
    requires s.Domains() && x in s.tree && x !in list
    ensures SameAt(s, Fold(s, v, list), x)
    decreases |list|
  {
    if list != [] {
      var n := |list| - 1;
      FoldElsewhere(s, v, list[..n], x);
      ApplyElsewhere(Fold(s, v, list[..n]), v, list[n], x);
    }
  }

  /** Visitors whose effect on a window depends on that window's fields, the tree and the
      unchanged screen only. */
  ghost predicate Local(v: Visitor) {
    v.SaveContents? || v.MoveOne? || v.MoveRecs? || v.RebuildRecs?
  }

  /** The traversal has the effect of one call on every listed window. */
  lemma {:induction false} FoldLocal(s: State, v: Visitor, list: seq<Window>, x: Window)
    requires s.Domains() && Local(v) && Distinct(list) && x in s.tree && x in list
    ensures SameAt(Apply(s, v, x), Fold(s, v, list), x)
    decreases |list|
  {
    hide Fold, Apply;
    var n := |list| - 1;
    var before, w := list[..n], list[n];
    assert list == before + [w];
    FoldStep(s, v, before, w);
    var t := Fold(s, v, before);
    FoldFrame(s, v, before);
    if w == x {
      FoldElsewhere(s, v, before, x);
      LocalAgree(s, t, v, x);
    } else {
      assert x in before;
      FoldLocal(s, v, before, x);
      ApplyElsewhere(t, v, w, x);
    }
  }

  lemma {:induction false} LocalAgree(s: State, t: State, v: Visitor, x: Window)
    requires s.Domains() && t.Domains() && x in s.tree && Local(v) && Framed(s, t, v) && SameAt(s, t, x)
    ensures SameAt(Apply(s, v, x), Apply(t, v, x), x)
  {
    match v
    case SaveContents(r) => SaveAgree(s, t, x, r);
    case MoveOne(dx, dy) =>
    case MoveRecs(dx, dy) =>
    case RebuildRecs(rs) => assert Hit(s.place, rs, x) <==> Hit(t.place, rs, x);
  }

  lemma {:induction false} SaveAgree(s: State, t: State, x: Window, r: Rect)
    requires s.Domains() && t.Domains() && x in s.tree && x in t.tree && SameAt(s, t, x) && s.screen == t.screen
    ensures SameAt(Save(s, x, r), Save(t, x, r), x)
  {
  }

  /** A redrawing traversal copies, for every listed window, exactly the pixels it hits. */
  lemma {:induction false} FoldRedraw(s: State, rs: seq<Rect>, list: seq<Window>, p: Pixel)
    requires s.Domains() && Apart(s) && Distinct(list) && forall x :: x in list ==> x in s.tree
    ensures var s' := Fold(s, RedrawContents(rs), list);
            && (forall x :: x in list && RedrawHits(s, x, rs, p) ==> s'.screen(p) == BitmapAt(s, x, p))
            && ((forall x :: x in list ==> !RedrawHits(s, x, rs, p)) ==> s'.screen(p) == s.screen(p))
    decreases |list|
  {
    hide Fold, Apply;
    if list == [] {
      FoldNothing(s, RedrawContents(rs));
    } else {
      var n := |list| - 1;
      var before, w := list[..n], list[n];
      FoldRedraw(s, rs, before, p);
      RedrawNext(s, rs, before, w, p);
      assert list == before + [w];
      FoldStep(s, RedrawContents(rs), before, w);
      assert forall x :: x in list <==> x in before || x == w;
      if RedrawHits(s, w, rs, p) {
        forall x | x in before ensures !RedrawHits(s, x, rs, p) { HitsOnce(s, x, w, rs, p); }
      }
    }
  }

  lemma {:induction false} HitsOnce(s: State, x: Window, w: Window, rs: seq<Rect>, p: Pixel)
    requires s.Domains() && Apart(s) && x in s.tree && w in s.tree && x != w && RedrawHits(s, w, rs, p)
    ensures !RedrawHits(s, x, rs, p)
  {
  }

  /** The last visit of a redrawing traversal. */
  lemma {:induction false} RedrawNext(s: State, rs: seq<Rect>, before: seq<Window>, w: Window, p: Pixel)
    requires s.Domains() && w in s.tree && w !in before
    ensures var t := Fold(s, RedrawContents(rs), before);
            Apply(t, RedrawContents(rs), w).screen(p) == if RedrawHits(s, w, rs, p) then BitmapAt(s, w, p) else t.screen(p)
  {
    hide Fold, Redraw;
    var v := RedrawContents(rs);
    var t := Fold(s, v, before);
    FoldFrame(s, v, before);
    FoldElsewhere(s, v, before, w);
    RedrawMeaning(t, w, rs, p);
    HitsAgree(s, t, w, rs, p);
  }

  lemma {:induction false} HitsAgree(s: State, t: State, w: Window, rs: seq<Rect>, p: Pixel)
    requires s.Domains() && t.Domains() && w in s.tree && w in t.tree && SameAt(s, t, w)
    ensures (RedrawHits(t, w, rs, p) <==> RedrawHits(s, w, rs, p)) && BitmapAt(t, w, p) == BitmapAt(s, w, p)
  {
  }

  lemma {:induction false} FoldRedrawStore(s: State, rs: seq<Rect>, list: seq<Window>, x: Window)
    requires s.Domains() && Distinct(list) && x in s.tree && x in list
    ensures Fold(s, RedrawContents(rs), list).store[x] == Redraw(s, x, rs).store[x]
    decreases |list|
  {
    hide Fold, Apply, Redraw;
    var n := |list| - 1;
    var before, w := list[..n], list[n];
    var v := RedrawContents(rs);
    assert list == before + [w];
    FoldStep(s, v, before, w);
    FoldFrame(s, v, before);
    if w == x {
      FoldElsewhere(s, v, before, x);
      RedrawStoreAgrees(s, Fold(s, v, before), rs, x);
    } else {
      assert x in before;
      FoldRedrawStore(s, rs, before, x);
      ApplyElsewhere(Fold(s, v, before), v, w, x);
    }
  }

  lemma {:induction false} RedrawStoreAgrees(s: State, t: State, rs: seq<Rect>, x: Window)
    requires s.Domains() && t.Domains() && x in s.tree && x in t.tree && SameAt(s, t, x)
    ensures Redraw(t, x, rs).store[x] == Redraw(s, x, rs).store[x]
    ensures Apply(t, RedrawContents(rs), x) == Redraw(t, x, rs)
  {
  }
}
