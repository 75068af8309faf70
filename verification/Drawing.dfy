/** Drawing into a window and copying between windows (server/client_noret.c:46-142, 287-479,
    and the frames of server/window.c:2028-2070), and bringing the screen up to date
    (server/window.c:2079-2115). */
module Drawing {
  import opened Geometry
  import opened WindowTree
  import opened Orders
  import opened Visibility
  import opened VisibleRects
  import opened Changes
  import opened Visitors
  import opened Backing
  import opened Coherence

  /** A drawing primitive: what it makes of the pixel at a position relative to the window.
      Outside its bounding rectangle it changes nothing. */
  type Paint = (Pixel, Color) -> Color

  /** Draw with the given clipping rectangle into a bitmap whose origin is at (x0, y0). */
  function Painted(pic: Picture, paint: Paint, r: Rect, clip: Rect, x0: int, y0: int): Picture {
    (p: Pixel) => if r.Shift(x0, y0).Has(p) && clip.Shift(x0, y0).Has(p) then paint(p.Plus(-x0, -y0), pic(p)) else pic(p)
  }

  /** rectUpdateDirty: the new dirty rectangle. */
  function DirtyWith(d: Rect, r: Rect): Rect {
    if d.w != 0 then
      var x1, y1 := Min(d.x0, r.x0), Min(d.y0, r.y0);
      Rect(x1, y1, Max(d.XR(), r.XR()) - x1, Max(d.YU(), r.YU()) - y1)
    else r
  }

  /** It contains the old one and the new part, and nothing outside the bounding box of
      two non-empty rectangles; when nothing was dirty, nothing outside the new part. */
  lemma {:induction false} DirtyMeaning(d: Rect, r: Rect, p: Pixel)
    ensures d.Has(p) || r.Has(p) ==> DirtyWith(d, r).Has(p)
    ensures d.Positive() && r.Positive() ==> Contains(DirtyWith(d, r), d) && Contains(DirtyWith(d, r), r)
    ensures d.w == 0 ==> Contains(DirtyWith(d, r), r) && forall b: Rect :: Contains(b, r) ==> Contains(b, DirtyWith(d, r))
    ensures d.Positive() && r.Positive() ==>
              forall b: Rect :: Contains(b, d) && Contains(b, r) ==> Contains(b, DirtyWith(d, r))
  {
  }

  /** The window has been drawn into: on the screen if it is shown as a whole, else in the
      bitmap.  `clip` is relative to the window. */
  ghost function Drawn(s: State, w: Window, paint: Paint, r: Rect, clip: Rect): (s': State)
    requires s.Domains() && w in s.tree
    ensures s'.Domains() && s'.tree == s.tree && s'.place == s.place && s'.shown == s.shown
  {
    var n, pos := s.store[w], s.place[w].pos;
    var s1 := s.(content := s.content[w := Painted(s.content[w], paint, r, clip, 0, 0)]);
    if s.place[w].isOpen && !s.shown[w].hidden then
      s1.(screen := Painted(s.screen, paint, r, clip, pos.x0, pos.y0), store := s.store[w := n.(isDirty := true)])
    else
      s1.(store := s.store[w := n.(bitmap := Painted(n.bitmap, paint, r, clip, 0, 0),
                                   dirty := if s.place[w].isOpen then DirtyWith(n.dirty, r) else n.dirty)])
  }

  lemma {:induction false} PaintedAt(pic: Picture, paint: Paint, r: Rect, clip: Rect, x0: int, y0: int, p: Pixel)
    ensures Painted(pic, paint, r, clip, x0, y0)(p)
            == var q := p.Plus(-x0, -y0); if r.Has(q) && clip.Has(q) then paint(q, pic(p)) else pic(p)
  {
  }

  /** Drawing keeps the window itself coherent ... */
  lemma {:induction false} DrawnHere(s: State, w: Window, paint: Paint, r: Rect, clip: Rect)
    requires s.Domains() && w in s.tree && Coherent(s, w)
    ensures Coherent(Drawn(s, w, paint, r, clip), w)
  {
    hide Painted, DirtyWith;
    var s', pos := Drawn(s, w, paint, r, clip), s.place[w].pos;
    forall p | pos.Has(p) && BitmapAt(s, w, p) == ContentAt(s, w, p) && !(s.place[w].isOpen && !s.shown[w].hidden)
      ensures BitmapAt(s', w, p) == ContentAt(s', w, p)
    {
      var q := p.Plus(-pos.x0, -pos.y0);
      PaintedAt(s.content[w], paint, r, clip, 0, 0, q);
      PaintedAt(s.store[w].bitmap, paint, r, clip, 0, 0, q);
      assert q.Plus(0, 0) == q;
    }
    forall p | s.place[w].isOpen && Covers(s.shown[w].recs, p) && !DirtyOnScreen(s', w).Has(p)
      ensures s'.screen(p) == ContentAt(s', w, p)
    {
      DrawnPixel(s, w, paint, r, clip, p);
    }
  }

  lemma {:induction false} DrawnPixel(s: State, w: Window, paint: Paint, r: Rect, clip: Rect, p: Pixel)
    requires s.Domains() && w in s.tree && Coherent(s, w) && s.place[w].isOpen && Covers(s.shown[w].recs, p)
    requires !DirtyOnScreen(Drawn(s, w, paint, r, clip), w).Has(p)
    ensures Drawn(s, w, paint, r, clip).screen(p) == ContentAt(Drawn(s, w, paint, r, clip), w, p)
  {
    hide Painted, DirtyWith;
    var pos := s.place[w].pos;
    var q := p.Plus(-pos.x0, -pos.y0);
    assert q.Plus(0, 0) == q;
    PaintedAt(s.content[w], paint, r, clip, 0, 0, q);
    PaintedAt(s.screen, paint, r, clip, pos.x0, pos.y0, p);
    DirtyMeaning(s.store[w].dirty, r, q);
    ShiftedHas(s.store[w].dirty, pos, p);
    ShiftedHas(DirtyWith(s.store[w].dirty, r), pos, p);
    assert s.screen(p) == ContentAt(s, w, p);
  }

  lemma {:induction false} ShiftedHas(d: Rect, pos: Rect, p: Pixel)
    ensures d.Shift(pos.x0, pos.y0).Has(p) <==> d.Has(p.Plus(-pos.x0, -pos.y0))
  {
  }

  /** ... and all others. */
  lemma {:induction false} DrawnElsewhere(s: State, w: Window, paint: Paint, r: Rect, clip: Rect, x: Window)
    requires s.Domains() && w in s.tree && x in s.tree && x != w && Coherent(s, x) && Apart(s) && FullyShown(s, w)
    requires Contains(Rect(0, 0, s.place[w].pos.w, s.place[w].pos.h), clip)
    ensures Coherent(Drawn(s, w, paint, r, clip), x)
  {
    var s' := Drawn(s, w, paint, r, clip);
    forall p | s.place[x].isOpen && Covers(s.shown[x].recs, p) ensures s'.screen(p) == s.screen(p) {
      if s.place[w].isOpen && !s.shown[w].hidden { assert !s.place[w].pos.Has(p); }
    }
    assert forall p :: BitmapAt(s', x, p) == BitmapAt(s, x, p) && ContentAt(s', x, p) == ContentAt(s, x, p);
  }

  /** One drawing step keeps the backing store of all windows coherent, and draws into the
      content of the window. */
  lemma {:induction false} DrawTheorem(s: State, root: Window, maxDepth: nat, w: Window, paint: Paint, r: Rect, clip: Rect)
    requires Sound(s, root, maxDepth) && w in s.tree && Contains(Rect(0, 0, s.place[w].pos.w, s.place[w].pos.h), clip)
    ensures var s' := Drawn(s, w, paint, r, clip);
            && Sound(s', root, maxDepth) && s'.tree == s.tree && s'.place == s.place && s'.shown == s.shown
            && s'.content == s.content[w := Painted(s.content[w], paint, r, clip, 0, 0)]
            && (AllCoherent(s) ==> AllCoherent(s'))
  {
    hide TreeOK, Shape, PlacesOK, AllShownOK, Coherent, Painted, DirtyWith, Apart, FullyShown, ShownOK;
    SoundAt(s, root, maxDepth, w);
    ShownFully(s, w);
    ShownApart(s, maxDepth, root);
    if AllCoherent(s) {
      forall x | x in s.tree ensures Coherent(Drawn(s, w, paint, r, clip), x) {
        assert Coherent(s, x);
        if x == w { DrawnHere(s, w, paint, r, clip); } else { DrawnElsewhere(s, w, paint, r, clip, x); }
      }
    }
  }

  // ----- Drawing into the root -----

  /** The bitmap of the root is that of the screen, and the root always counts as hidden: what
      is drawn into it appears on the screen, whoever owns the pixels. */
  ghost function RootDrawn(s: State, root: Window, paint: Paint, r: Rect, clip: Rect): (s': State)
    requires s.Domains() && root in s.tree
    ensures s'.Domains() && s'.tree == s.tree && s'.place == s.place && s'.shown == s.shown && s'.content == s.content
  {
    s.(screen := Painted(s.screen, paint, r, clip, 0, 0),
       store := s.store[root := s.store[root].(dirty := DirtyWith(s.store[root].dirty, r))])
  }

  /** The drawing changes a pixel that a window shows and that is not waiting to be redrawn. */
  ghost predicate Defaces(s: State, paint: Paint, r: Rect, clip: Rect) {
    s.Domains() && exists w, p :: w in s.tree && s.place[w].isOpen && Covers(s.shown[w].recs, p) && !DirtyOnScreen(s, w).Has(p)
                                  && Painted(s.screen, paint, r, clip, 0, 0)(p) != s.screen(p)
  }

  /** Drawing into the root keeps the windows coherent exactly when it defaces none of them. */
  lemma {:induction false} RootDrawTheorem(s: State, root: Window, maxDepth: nat, paint: Paint, r: Rect, clip: Rect)
    requires Sound(s, root, maxDepth) && root in s.tree && s.shown[root] == Shown([], true)
    ensures var s' := RootDrawn(s, root, paint, r, clip);
            Sound(s', root, maxDepth) && (AllCoherent(s) ==> (AllCoherent(s') <==> !Defaces(s, paint, r, clip)))
  {
    hide TreeOK, Shape, PlacesOK, AllShownOK, Painted, DirtyWith, BitmapWhole;
    if AllCoherent(s) {
      var s' := RootDrawn(s, root, paint, r, clip);
      if Defaces(s, paint, r, clip) {
        var w, p :| w in s.tree && s.place[w].isOpen && Covers(s.shown[w].recs, p) && !DirtyOnScreen(s, w).Has(p)
                    && Painted(s.screen, paint, r, clip, 0, 0)(p) != s.screen(p);
        assert Coherent(s, w) && w != root;
        assert !Coherent(s', w);
      } else {
        forall x | x in s.tree ensures Coherent(s', x) {
          assert Coherent(s, x);
          SameWhole(s, s', x);
        }
      }
    }
  }

  lemma {:induction false} SameWhole(s: State, t: State, x: Window)
    requires s.Domains() && t.Domains() && x in s.tree && x in t.tree && s.place[x] == t.place[x] && s.content[x] == t.content[x]
    requires s.store[x].bitmap == t.store[x].bitmap
    ensures BitmapWhole(s, x) <==> BitmapWhole(t, x)
  {
  }

  /** Whenever nothing waits to be redrawn, any change of a screen pixel counts. */
  lemma {:induction false} DefacesOnScreen(s: State, root: Window, maxDepth: nat, paint: Paint, r: Rect, clip: Rect)
    requires Sound(s, root, maxDepth) && root in s.tree && s.place[root].isOpen && forall x :: x in s.tree ==> s.store[x].dirty.w == 0
    ensures Defaces(s, paint, r, clip) <==> exists p :: s.place[root].pos.Has(p) && Painted(s.screen, paint, r, clip, 0, 0)(p) != s.screen(p)
  {
    hide TreeOK, Shape, PlacesOK, AllShownOK, Painted, Vis;
    if p :| s.place[root].pos.Has(p) && Painted(s.screen, paint, r, clip, 0, 0)(p) != s.screen(p) {
      VisiblePartition(s.tree, maxDepth, s.place, root, p);
      var w :| w in s.tree && Vis(s.tree, s.place, w, p);
      CoveredIsVisible(s, root, maxDepth, w, p);
    }
    if Defaces(s, paint, r, clip) {
      var w, p :| w in s.tree && Covers(s.shown[w].recs, p) && Painted(s.screen, paint, r, clip, 0, 0)(p) != s.screen(p);
      CoveredIsVisible(s, root, maxDepth, w, p);
      VisiblePartition(s.tree, maxDepth, s.place, root, p);
    }
  }

  // ----- Copying -----

  /** The picture, seen from (x0, y0). */
  function SeenFrom(pic: Picture, x0: int, y0: int): Picture { (p: Pixel) => pic(p.Plus(x0, y0)) }

  /** Where a copy reads: on the screen when the window is shown as a whole, else in its bitmap,
      which for the root is that of the screen. */
  ghost function Source(s: State, root: Window, v: Window): Picture
    requires s.Domains() && v in s.tree
  {
    if s.place[v].isOpen && !s.shown[v].hidden then SeenFrom(s.screen, s.place[v].pos.x0, s.place[v].pos.y0)
    else if v == root then s.screen
    else s.store[v].bitmap
  }

  /** Copying is a drawing whose colours come from a picture, `dx` to the left and `dy` above,
      as far as `clip` admits. */
  function CopyPaint(source: Picture, clip: Rect, dx: int, dy: int): Paint {
    (p: Pixel, old': Color) => if clip.Has(p.Plus(-dx, -dy)) then source(p.Plus(-dx, -dy)) else old'
  }

  lemma {:induction false} CopyPaintAt(source: Picture, clip: Rect, dx: int, dy: int, p: Pixel, c: Color)
    ensures CopyPaint(source, clip, dx, dy)(p, c) == if clip.Has(p.Plus(-dx, -dy)) then source(p.Plus(-dx, -dy)) else c
  {
  }

  /** Whichever picture is read, it holds the content of the window. */
  lemma {:induction false} SourceIsContent(s: State, root: Window, maxDepth: nat, v: Window, p: Pixel)
    requires Sound(s, root, maxDepth) && v in s.tree && v != root && Coherent(s, v)
    requires Rect(0, 0, s.place[v].pos.w, s.place[v].pos.h).Has(p)
    ensures Source(s, root, v)(p) == s.content[v](p)
  {
    hide TreeOK, Shape, PlacesOK, AllShownOK;
    var pos := s.place[v].pos;
    var q := p.Plus(pos.x0, pos.y0);
    assert q.Plus(-pos.x0, -pos.y0) == p;
    if s.place[v].isOpen && !s.shown[v].hidden {
      UnhiddenShows(s, root, maxDepth, v, q);
      assert !DirtyOnScreen(s, v).Has(q);
      assert s.screen(q) == ContentAt(s, v, q);
    } else {
      assert BitmapAt(s, v, q) == ContentAt(s, v, q);
    }
  }

  /** `after` is `before` with pixels of `source` in it: those of the rectangle `to`, as far as
      both working areas admit. */
  ghost predicate HoldsCopy(after: Picture, before: Picture, source: Picture, clip: Rect, area: Rect, to: Rect, dx: int, dy: int) {
    forall p :: after(p) == if to.Has(p) && area.Has(p) && clip.Has(p.Plus(-dx, -dy)) then source(p.Plus(-dx, -dy)) else before(p)
  }

  /** client_bitblk and client_bitblk2: the content of `w` receives pixels of the content of `v`,
      wherever the two are held, and all windows stay coherent. */
  lemma {:induction false} CopyTheorem(s: State, root: Window, maxDepth: nat, v: Window, w: Window, to: Rect, dx: int, dy: int)
    requires Sound(s, root, maxDepth) && AllCoherent(s) && v in s.tree && v != root && w in s.tree
    ensures var s' := Drawn(s, w, CopyPaint(Source(s, root, v), s.place[v].area, dx, dy), to, s.place[w].area);
            && Sound(s', root, maxDepth) && AllCoherent(s') && s'.place == s.place
            && (forall x :: x in s.tree && x != w ==> s'.content[x] == s.content[x])
            && HoldsCopy(s'.content[w], s.content[w], s.content[v], s.place[v].area, s.place[w].area, to, dx, dy)
  {
    hide TreeOK, Shape, AllShownOK, CopyPaint, Painted, Source, AllCoherent, Coherent;
    var source, area := Source(s, root, v), s.place[w].area;
    var paint := CopyPaint(source, s.place[v].area, dx, dy);
    assert PlaceOK(s.place[v]) && PlaceOK(s.place[w]);
    DrawTheorem(s, root, maxDepth, w, paint, to, area);
    CoherentAt(s, v);
    var s' := Drawn(s, w, paint, to, area);
    forall p ensures s'.content[w](p) == if to.Has(p) && area.Has(p) && s.place[v].area.Has(p.Plus(-dx, -dy))
                                         then s.content[v](p.Plus(-dx, -dy)) else s.content[w](p)
    {
      assert p.Plus(0, 0) == p;
      PaintedAt(s.content[w], paint, to, area, 0, 0, p);
      CopyPaintAt(source, s.place[v].area, dx, dy, p, s.content[w](p));
      if s.place[v].area.Has(p.Plus(-dx, -dy)) { SourceIsContent(s, root, maxDepth, v, p.Plus(-dx, -dy)); }
    }
  }

  // ----- windowRedrawAllIfDirty -----

  /** The rectangles lie inside the window. */
  ghost predicate Within(s: State, w: Window)
    requires s.Domains() && w in s.tree
  {
    forall p :: Covers(s.shown[w].recs, p) ==> s.place[w].pos.Has(p)
  }

  /** redrawIfDirty keeps every window coherent and leaves nothing dirty in the visited one. */
  lemma {:induction false} RedrawDirtyHere(s: State, w: Window)
    requires s.Domains() && w in s.tree && Coherent(s, w) && Within(s, w)
    ensures var s' := RedrawDirty(s, w);
            Coherent(s', w) && s'.store[w].dirty.w == 0 && s'.place == s.place && s'.shown == s.shown
  {
    hide Redraw;
    var rs := [DirtyOnScreen(s, w)];
    var s' := RedrawDirty(s, w);
    RedrawFrame(s, w, rs);
    forall p ensures Redraw(s, w, rs).screen(p) == if RedrawHits(s, w, rs, p) then BitmapAt(s, w, p) else s.screen(p) {
      RedrawMeaning(s, w, rs, p);
    }
    RedrawMeaning(s, w, rs, Pixel(0, 0));
    forall p | s.place[w].isOpen && Covers(s.shown[w].recs, p) ensures s'.screen(p) == ContentAt(s', w, p) || s.store[w].dirty.w == 0 {
      if Covers(rs, p) { assert rs[0].Has(p); } else { assert rs[0] in rs; }
      if s.store[w].isDirty { assert !DirtyOnScreen(s, w).Has(p); }
    }
    assert forall p :: BitmapAt(s', w, p) == BitmapAt(s, w, p) && ContentAt(s', w, p) == ContentAt(s, w, p);
  }

  lemma {:induction false} RedrawFrame(s: State, w: Window, rs: seq<Rect>)
    requires s.Domains() && w in s.tree
    ensures var s' := Redraw(s, w, rs); s' == s.(screen := s'.screen, store := s.store[w := s'.store[w]])
  {
  }

  lemma {:induction false} RedrawDirtyElsewhere(s: State, w: Window, x: Window)
    requires s.Domains() && w in s.tree && x in s.tree && x != w && Coherent(s, x) && Apart(s)
    ensures var s' := RedrawDirty(s, w);
            Coherent(s', x) && s'.store[x] == s.store[x]
  {
    hide Redraw;
    var rs := [DirtyOnScreen(s, w)];
    var s' := RedrawDirty(s, w);
    RedrawFrame(s, w, rs);
    forall p | Covers(s.shown[x].recs, p) ensures s'.screen(p) == s.screen(p) {
      RedrawMeaning(s, w, rs, p);
    }
    assert forall p :: BitmapAt(s', x, p) == BitmapAt(s, x, p) && ContentAt(s', x, p) == ContentAt(s, x, p);
  }

  lemma {:induction false} RedrawDirtyOne(s: State, w: Window)
    requires s.Domains() && Apart(s) && AllCoherent(s) && w in s.tree && Within(s, w)
    ensures var s' := RedrawDirty(s, w);
            && s'.Domains() && AllCoherent(s') && s'.tree == s.tree && s'.place == s.place && s'.shown == s.shown && s'.content == s.content
            && s'.store[w].dirty.w == 0 && forall x :: x in s.tree && x != w ==> s'.store[x] == s.store[x]
  {
    hide Coherent, Apart, Within, Redraw;
    var s' := RedrawDirty(s, w);
    CoherentAt(s, w);
    RedrawFrame(s, w, [DirtyOnScreen(s, w)]);
    RedrawDirtyHere(s, w);
    forall x | x in s.tree && x != w ensures Coherent(s', x) && s'.store[x] == s.store[x] {
      CoherentAt(s, x);
      RedrawDirtyElsewhere(s, w, x);
    }
  }

  /** After the traversal the windows are still coherent, and those visited have no dirty part. */
  lemma {:induction false} FoldRedrawDirty(s: State, list: seq<Window>)
    requires s.Domains() && Apart(s) && AllCoherent(s) && forall x :: x in list ==> x in s.tree && Within(s, x)
    ensures var s' := Fold(s, RedrawIfDirty, list);
            && AllCoherent(s') && s'.tree == s.tree && s'.place == s.place && s'.shown == s.shown && s'.content == s.content
            && forall x :: x in list ==> s'.store[x].dirty.w == 0
    decreases |list|
  {
    hide Fold, RedrawDirty, AllCoherent;
    if list == [] {
      FoldNothing(s, RedrawIfDirty);
    } else {
      var n := |list| - 1;
      var before, w := list[..n], list[n];
      assert list == before + [w];
      FoldRedrawDirty(s, before);
      FoldStep(s, RedrawIfDirty, before, w);
      var t := Fold(s, RedrawIfDirty, before);
      assert Within(s, w) && Within(t, w);
      RedrawDirtyOne(t, w);
    }
  }

  /** What windowRedrawAllIfDirty achieves: on the whole screen, every pixel is that of the
      content of the window that owns it. */
  ghost predicate UpToDate(s: State, root: Window, maxDepth: nat)
    requires Sound(s, root, maxDepth)
  {
    forall p :: s.place[root].pos.Has(p) ==>
      var w := Find(s.tree, maxDepth, s.place, root, p);
      w != null && w in s.tree && s.screen(p) == ContentAt(s, w, p)
  }

  lemma {:induction false} RedrawAllTheorem(s: State, root: Window, maxDepth: nat)
    requires Sound(s, root, maxDepth) && AllCoherent(s) && s.place[root].isOpen
    ensures var s' := Fold(s, RedrawIfDirty, Pre(s.tree, maxDepth, {}, root));
            && Sound(s', root, maxDepth) && AllCoherent(s') && UpToDate(s', root, maxDepth)
            && s'.tree == s.tree && s'.place == s.place && s'.shown == s.shown && s'.content == s.content
  {
    hide Fold, TreeOK, Shape, Coherent, ShownOK, Pre, PlacesOK;
    TreeParts(s.tree, root, maxDepth);
    var list := Pre(s.tree, maxDepth, {}, root);
    ShownApart(s, maxDepth, root);
    forall x | x in s.tree ensures x in list {
      RootAbove(s.tree, maxDepth, root, x);
      PreMembers(s.tree, maxDepth, root, x);
    }
    PreAbove(s.tree, maxDepth, {}, root);
    forall x | x in list ensures x in s.tree && Within(s, x) {
      AboveDepth(s.tree, root, x);
      SoundAt(s, root, maxDepth, x);
      ShownFully(s, x);
    }
    FoldRedrawDirty(s, list);
    var s' := Fold(s, RedrawIfDirty, list);
    assert Sound(s', root, maxDepth);
    forall p | s.place[root].pos.Has(p)
      ensures var w := Find(s.tree, maxDepth, s.place, root, p); w != null && w in s.tree && s'.screen(p) == ContentAt(s', w, p)
    {
      OwnedPixel(s', root, maxDepth, p);
    }
  }

  /** A pixel of the screen, when the window that owns it has no dirty part. */
  lemma {:induction false} OwnedPixel(s: State, root: Window, maxDepth: nat, p: Pixel)
    requires Sound(s, root, maxDepth) && AllCoherent(s) && s.place[root].isOpen && s.place[root].pos.Has(p)
    requires forall x :: x in s.tree ==> s.store[x].dirty.w == 0
    ensures var w := Find(s.tree, maxDepth, s.place, root, p); w != null && w in s.tree && s.screen(p) == ContentAt(s, w, p)
  {
    hide TreeOK, Shape, PlacesOK, ShownOK;
    VisiblePartition(s.tree, maxDepth, s.place, root, p);
    var w :| w in s.tree && Vis(s.tree, s.place, w, p);
    VisibleIffFound(s.tree, maxDepth, s.place, root, w, p);
    CoveredIsVisible(s, root, maxDepth, w, p);
    assert Coherent(s, w) && !DirtyOnScreen(s, w).Has(p);
  }
}
