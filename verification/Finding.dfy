/** window_find (server/window.c:1798-1861): the cached search gives the same window as the
    uncached one, and moving a rectangle to the front of its list does no harm. */
module Finding {
  import opened Geometry
  import opened WindowTree
  import opened Visibility
  import opened VisibleRects
  import opened Visitors
  import opened Backing
  import opened Coherence

  function ToFront(recs: seq<Rect>, i: nat): seq<Rect>
    requires i < |recs|
  {
    [recs[i]] + recs[..i] + recs[i + 1..]
  }

  lemma {:induction false} ToFrontMeaning(recs: seq<Rect>, i: nat)
    requires i < |recs|
    ensures forall r :: r in ToFront(recs, i) <==> r in recs
    ensures Disjoint(recs) ==> Disjoint(ToFront(recs, i))
    ensures forall p :: Covers(ToFront(recs, i), p) <==> Covers(recs, p)
  {
    var to := ToFront(recs, i);
    forall r | r in recs ensures r in to {
      var j :| 0 <= j < |recs| && recs[j] == r;
      assert to[if j == i then 0 else if j < i then j + 1 else j] == r;
    }
    if Disjoint(recs) {
      forall j, k | 0 <= j < k < |to| ensures !Intersects(to[j], to[k]) {
        var a, b := (if j == 0 then i else if j <= i then j - 1 else j), if k <= i then k - 1 else k;
        assert to[j] == recs[a] && to[k] == recs[b];
        if a < b { assert !Intersects(recs[a], recs[b]); } else { assert !Intersects(recs[b], recs[a]); }
      }
    }
  }

  /** The state after a cache hit in the i-th rectangle of `w`. */
  ghost function Reordered(s: State, w: Window, i: nat): (s': State)
    requires s.Domains() && w in s.tree && i < |s.shown[w].recs|
    ensures s'.Domains() && s' == s.(shown := s'.shown)
  {
    s.(shown := s.shown[w := s.shown[w].(recs := ToFront(s.shown[w].recs, i))])
  }

  lemma {:induction false} ReorderedOK(s: State, root: Window, maxDepth: nat, w: Window, i: nat)
    requires Sound(s, root, maxDepth) && w in s.tree && i < |s.shown[w].recs|
    ensures var s' := Reordered(s, w, i);
            && Sound(s', root, maxDepth) && (AllCoherent(s) ==> AllCoherent(s'))
            && forall x, p :: x in s.tree ==> (Covers(s'.shown[x].recs, p) <==> Covers(s.shown[x].recs, p))
  {
    hide TreeOK, Shape, PlacesOK, Vis, ToFront, Coherent, Disjoint;
    var s' := Reordered(s, w, i);
    ToFrontMeaning(s.shown[w].recs, i);
    forall x | x in s.tree ensures ShownOK(s'.tree, s'.place, x, s'.shown[x]) {
      assert ShownOK(s.tree, s.place, x, s.shown[x]);
    }
    if AllCoherent(s) {
      forall x | x in s.tree ensures Coherent(s', x) {
        CoherentAt(s, x);
        SameCoherent(s, s', x);
      }
    }
  }

  lemma {:induction false} SameCoherent(s: State, t: State, x: Window)
    requires s.Domains() && t.Domains() && t == s.(shown := t.shown) && x in s.tree && Coherent(s, x)
    requires s.shown[x].hidden == t.shown[x].hidden && forall p :: Covers(t.shown[x].recs, p) <==> Covers(s.shown[x].recs, p)
    ensures Coherent(t, x)
  {
    hide BitmapWhole;
    SameBitmap(s, t, x);
  }

  lemma {:induction false} SameBitmap(s: State, t: State, x: Window)
    requires s.Domains() && t.Domains() && t == s.(shown := t.shown) && x in s.tree
    ensures BitmapWhole(t, x) <==> BitmapWhole(s, x)
  {
  }

  /** A rectangle of an open window contains the point: the search finds that window. */
  lemma {:induction false} CacheHit(s: State, root: Window, maxDepth: nat, w: Window, i: nat, p: Pixel)
    requires Sound(s, root, maxDepth) && w in s.tree && i < |s.shown[w].recs| && s.shown[w].recs[i].Has(p)
    ensures Find(s.tree, maxDepth, s.place, root, p) == w
  {
    hide TreeOK, Shape, PlacesOK, ShownOK;
    assert s.shown[w].recs[i] in s.shown[w].recs;
    CoveredIsVisible(s, root, maxDepth, w, p);
    VisibleIffFound(s.tree, maxDepth, s.place, root, w, p);
  }

  /** The loop over the rectangles of the cached window: the first one that holds the point. */
  ghost function IndexAt(recs: seq<Rect>, p: Pixel): (i: nat)
    ensures i <= |recs| && (i < |recs| ==> recs[i].Has(p)) && (i == |recs| <==> !Covers(recs, p))
  {
    if recs == [] then 0
    else if recs[0].Has(p) then assert recs[0] in recs; 0
    else
      CoversCons(recs, p);
      1 + IndexAt(recs[1..], p)
  }

  lemma {:induction false} FirstAt(recs: seq<Rect>, p: Pixel, i: nat)
    requires i <= |recs| && (i < |recs| ==> recs[i].Has(p)) && forall j :: 0 <= j < i ==> !recs[j].Has(p)
    ensures i == IndexAt(recs, p)
  {
    if i > 0 {
      assert recs[0..] == recs && !recs[0].Has(p);
      FirstAt(recs[1..], p, i - 1);
    }
  }

  // ----- The search loops -----

  lemma {:induction false} FirstHitStep(pl: Places, list: seq<Window>, i: nat, p: Pixel)
    requires i < |list|
    ensures FirstHit(pl, list[i..], p) == if list[i] in pl && pl[list[i]].isOpen && pl[list[i]].pos.Has(p) then list[i] else FirstHit(pl, list[i + 1..], p)
  {
    assert list[i..][0] == list[i] && list[i..][1..] == list[i + 1..];
  }

  lemma {:induction false} NoMoreHits(pl: Places, list: seq<Window>, p: Pixel)
    ensures FirstHit(pl, list[|list|..], p) == null
  {
  }

  lemma {:induction false} SearchStep(t: Tree, maxDepth: nat, pl: Places, w: Window, p: Pixel)
    requires Shape(t, maxDepth) && t.Keys == pl.Keys && w in t
    ensures FindFrom(t, maxDepth, pl, w, p) ==
            if !pl[w].work.Has(p) || FirstHit(pl, t[w].kids, p) == null then w
            else assert KidsOK(t, w, maxDepth); FindFrom(t, maxDepth, pl, FirstHit(pl, t[w].kids, p), p)
  {
  }
}
