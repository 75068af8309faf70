/** What the invariant of the window manager says in every reachable state. */
module Results {
  import opened Geometry
  import opened WindowTree
  import opened Visibility
  import opened VisibleRects
  import opened Changes
  import opened Visitors
  import opened Backing
  import opened Coherence
  import opened Rooted

  /** Incremental maintenance gives what recomputation would give: the list of an open window
      stands for the pixels of a fresh window_build_recs, and the flag is the same. */
  lemma {:induction false} SameAsFresh(s: State, root: Window, maxDepth: nat, w: Window)
    requires Sound(s, root, maxDepth) && w in s.tree && s.place[w].isOpen
    ensures var fresh' := Build(s.tree, s.place, w);
            (forall p :: Covers(s.shown[w].recs, p) <==> Covers(fresh'.recs, p)) && s.shown[w].hidden == fresh'.hidden
  {
    hide TreeOK, Shape, PlacesOK, Vis, Build;
    SoundAt(s, root, maxDepth, w);
    BuildMeaning(s.tree, s.place, w);
  }

  /** The rectangle lists of all windows partition the screen; a window with a closed ancestor
      has none; an open window counts as unhidden exactly when its list covers all of it. */
  lemma {:induction false} ScreenPartition(s: State, root: Window, background: Window, maxDepth: nat)
    requires Fine(s, root, background, maxDepth)
    ensures forall p :: s.place[root].pos.Has(p) <==> exists w :: w in s.tree && Covers(s.shown[w].recs, p)
    ensures forall u, w, p :: u in s.tree && w in s.tree && Covers(s.shown[u].recs, p) && Covers(s.shown[w].recs, p) ==> u == w
    ensures forall w :: w in s.tree ==> Disjoint(s.shown[w].recs) && AllPositive(s.shown[w].recs)
    ensures forall w :: w in s.tree && !AllOpen(s.tree, s.place, w) ==> s.shown[w].recs == []
    ensures forall w :: w in s.tree && s.place[w].isOpen ==>
              (!s.shown[w].hidden <==> forall p :: s.place[w].pos.Has(p) <==> Covers(s.shown[w].recs, p))
  {
    hide TreeOK, Shape, PlacesOK, Vis;
    FineParts(s, root, background, maxDepth);
    ShownApart(s, maxDepth, root);
    forall p ensures s.place[root].pos.Has(p) <==> exists w :: w in s.tree && Covers(s.shown[w].recs, p) {
      VisiblePartition(s.tree, maxDepth, s.place, root, p);
      if s.place[root].pos.Has(p) {
        var w :| w in s.tree && Vis(s.tree, s.place, w, p);
        CoveredIsVisible(s, root, maxDepth, w, p);
      }
      if w :| w in s.tree && Covers(s.shown[w].recs, p) { CoveredIsVisible(s, root, maxDepth, w, p); }
    }
    forall w | w in s.tree
      ensures Disjoint(s.shown[w].recs) && AllPositive(s.shown[w].recs)
      ensures !AllOpen(s.tree, s.place, w) ==> s.shown[w].recs == []
      ensures s.place[w].isOpen ==> (!s.shown[w].hidden <==> forall p :: s.place[w].pos.Has(p) <==> Covers(s.shown[w].recs, p))
    {
      WindowInOrder(s, root, maxDepth, w);
    }
  }

  lemma {:induction false} WindowInOrder(s: State, root: Window, maxDepth: nat, w: Window)
    requires Sound(s, root, maxDepth) && w in s.tree
    ensures Disjoint(s.shown[w].recs) && AllPositive(s.shown[w].recs)
    ensures !AllOpen(s.tree, s.place, w) ==> s.shown[w].recs == []
    ensures s.place[w].isOpen ==> (!s.shown[w].hidden <==> forall p :: s.place[w].pos.Has(p) <==> Covers(s.shown[w].recs, p))
  {
    hide TreeOK, Shape, PlacesOK;
    SoundAt(s, root, maxDepth, w);
    if !AllOpen(s.tree, s.place, w) { NothingShown(s.tree, s.place, w, s.shown[w]); }
  }
}
