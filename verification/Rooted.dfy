/** The root window is always hidden by the background window. */
module Rooted {
  import opened Geometry
  import opened WindowTree
  import opened Orders
  import opened Visibility
  import opened VisibleRects
  import opened Changes
  import opened Steps
  import opened Visitors
  import opened Backing
  import opened Coherence
  import opened Phases
  import opened Opening
  import opened Closing
  import opened Moving
  import opened Restacking
  import opened Reordering
  import opened Drawing

  /** The background is an open child of the root and covers it completely. */
  ghost predicate RootCovered(t: Tree, pl: Places, root: Window, background: Window) {
    && root in t && root in pl && background in t && background in pl
    && t[background].parent == root && pl[root].isOpen && pl[background].isOpen
    && pl[background].pos == pl[root].pos == pl[root].work
  }

  /** The invariant of the window manager, apart from the links. */
  ghost predicate Fine(s: State, root: Window, background: Window, maxDepth: nat) {
    Sound(s, root, maxDepth) && root != background && RootCovered(s.tree, s.place, root, background)
  }

  lemma {:induction false} FineParts(s: State, root: Window, background: Window, maxDepth: nat)
    requires Fine(s, root, background, maxDepth)
    ensures Sound(s, root, maxDepth) && TreeOK(s.tree, root, maxDepth) && Shape(s.tree, maxDepth) && s.Domains()
    ensures RootCovered(s.tree, s.place, root, background) && RootBare(s, root) && root in s.tree
  {
    RootIsBare(s, root, maxDepth, background);
  }

  lemma {:induction false} FineUsable(s: State, root: Window, background: Window, maxDepth: nat, w: Window)
    requires Fine(s, root, background, maxDepth) && w in s.tree && w != root
    ensures Usable(s, root, maxDepth, w)
  {
    NextIn(s.tree, maxDepth, root, w);
  }

  lemma {:induction false} RootInvisible(t: Tree, maxDepth: nat, pl: Places, root: Window, background: Window, p: Pixel)
    requires TreeOK(t, root, maxDepth) && RootCovered(t, pl, root, background)
    ensures !Vis(t, pl, root, p)
  {
    assert ParentOK(t, background);
  }

  /** So its list stays empty and its flag raised, however often it is rebuilt. */
  lemma {:induction false} RootBuild(t: Tree, maxDepth: nat, pl: Places, root: Window, background: Window)
    requires TreeOK(t, root, maxDepth) && PlacesOK(t, pl) && RootCovered(t, pl, root, background)
    ensures Build(t, pl, root) == Shown([], true)
  {
    BuildMeaning(t, pl, root);
    forall p ensures !Vis(t, pl, root, p) { RootInvisible(t, maxDepth, pl, root, background, p); }
    NothingShown(t, pl, root, Build(t, pl, root));
  }

  lemma {:induction false} RootIsBare(s: State, root: Window, maxDepth: nat, background: Window)
    requires Sound(s, root, maxDepth) && RootCovered(s.tree, s.place, root, background)
    ensures RootBare(s, root)
  {
    forall p ensures !Vis(s.tree, s.place, root, p) { RootInvisible(s.tree, maxDepth, s.place, root, background, p); }
    assert ShownOK(s.tree, s.place, root, s.shown[root]);
    NothingShown(s.tree, s.place, root, s.shown[root]);
  }

  /** The root and the background lie outside the subtree of every other window. */
  lemma {:induction false} RootOutside(t: Tree, maxDepth: nat, root: Window, background: Window, w: Window)
    requires TreeOK(t, root, maxDepth) && background in t && t[background].parent == root && w in t && w != root && w != background
    ensures !Above(t, w, root) && !Above(t, w, background)
  {
    assert !HasParent(t, root);
  }

  /** Closing and moving any other window leave the root covered, and so does opening. */
  lemma {:induction false} RootStaysCovered(s: State, root: Window, background: Window, maxDepth: nat, w: Window, pl: Places)
    requires Fine(s, root, background, maxDepth) && w in s.tree && w != root && pl.Keys == s.tree.Keys
    requires w == background ==> s.place[w].isOpen && pl[w] == s.place[w]
    requires forall v :: v in s.tree && !Above(s.tree, w, v) ==> pl[v] == s.place[v]
    ensures RootCovered(s.tree, pl, root, background)
  {
    if w != background { RootOutside(s.tree, maxDepth, root, background, w); } else { assert !HasParent(s.tree, root); }
  }

  /** window_open keeps the invariant, and every coherent window coherent. */
  lemma {:induction false} OpenKeeps(s: State, root: Window, background: Window, maxDepth: nat, w: Window, x: int, y: int)
    requires Fine(s, root, background, maxDepth) && Usable(s, root, maxDepth, w) && !s.place[w].isOpen
    ensures var pl := Opened(s.tree, s.place, w, x, y);
            RootCovered(s.tree, pl, root, background) && Build(s.tree, pl, root) == Shown([], true)
    ensures var s' := OpenResult(s, root, maxDepth, w, x, y);
            && Fine(s', root, background, maxDepth) && s'.tree == s.tree && s'.content == s.content
            && s'.place == Opened(s.tree, s.place, w, x, y)
            && (AllCoherent(s) ==> AllCoherent(s'))
  {
    hide Usable, Sound, TreeOK, Shape, PlacesOK, AllShownOK, Build, AllCoherent, OpenResult, Above;
    UsableTree(s, root, maxDepth, w);
    AboveSelf(s.tree, w);
    RootStaysCovered(s, root, background, maxDepth, w, Opened(s.tree, s.place, w, x, y));
    OpenedPlaces(s, root, maxDepth, w, x, y);
    RootBuild(s.tree, maxDepth, Opened(s.tree, s.place, w, x, y), root, background);
    OpenTheorem(s, root, maxDepth, w, x, y);
  }

  /** window_close keeps the invariant.  It keeps the backing store of all windows coherent
      exactly when the parent's border is not stale. */
  lemma {:induction false} CloseKeeps(s: State, root: Window, background: Window, maxDepth: nat, w: Window)
    requires Fine(s, root, background, maxDepth) && Usable(s, root, maxDepth, w) && AllOpen(s.tree, s.place, w) && w != background
    ensures var pl := s.place[w := s.place[w].(isOpen := false)];
            RootCovered(s.tree, pl, root, background) && Build(s.tree, pl, root) == Shown([], true)
    ensures var s' := CloseResult(s, root, maxDepth, w);
            && Fine(s', root, background, maxDepth) && s'.tree == s.tree && s'.content == s.content
            && s'.place == s.place[w := s.place[w].(isOpen := false)]
            && (AllCoherent(s) ==> (AllCoherent(s') <==> !StaleBorder(s, w)))
            && (AllCoherent(s) ==> (Coherent(s', s.tree[w].parent) <==> !StaleBorder(s, w)))
            && (AllCoherent(s) ==> forall v :: v in s.tree && v != s.tree[w].parent ==> Coherent(s', v))
  {
    hide Usable, Sound, TreeOK, Shape, PlacesOK, AllShownOK, Build, AllCoherent, Coherent, CloseResult, Above, StaleBorder, AllOpen;
    UsableTree(s, root, maxDepth, w);
    AboveSelf(s.tree, w);
    var pl := s.place[w := s.place[w].(isOpen := false)];
    RootStaysCovered(s, root, background, maxDepth, w, pl);
    PlacesMoved(s.tree, s.place, pl, 0, 0);
    RootBuild(s.tree, maxDepth, pl, root, background);
    CloseTheorem(s, root, maxDepth, w);
  }

  /** window_move keeps the invariant.  It keeps the backing store of all windows coherent
      exactly when the parent's border is not stale. */
  lemma {:induction false} MoveKeeps(s: State, root: Window, background: Window, maxDepth: nat, w: Window, dx: int, dy: int, free: bool)
    requires Fine(s, root, background, maxDepth) && Usable(s, root, maxDepth, w) && s.place[w].isOpen && w != background
    requires free ==> FreeMove(s.tree, s.place, MovedTo(s.tree, s.place, w, dx, dy), w)
    ensures var pl := MovedTo(s.tree, s.place, w, dx, dy);
            RootCovered(s.tree, pl, root, background) && Build(s.tree, pl, root) == Shown([], true)
    ensures var s' := MoveResult(s, root, maxDepth, w, dx, dy, free);
            && Fine(s', root, background, maxDepth) && s'.tree == s.tree && s'.content == s.content
            && s'.place == MovedTo(s.tree, s.place, w, dx, dy)
            && (AllCoherent(s) ==> (AllCoherent(s') <==> !StaleMove(s, w, dx, dy)))
  {
    hide Usable, Sound, TreeOK, Shape, PlacesOK, AllShownOK, Build, AllCoherent, MoveResult, MovedTo, Above, StaleMove, FreeMove;
    UsableTree(s, root, maxDepth, w);
    MovedToOK(s, root, maxDepth, w, dx, dy);
    RootStaysCovered(s, root, background, maxDepth, w, MovedTo(s.tree, s.place, w, dx, dy));
    RootBuild(s.tree, maxDepth, MovedTo(s.tree, s.place, w, dx, dy), root, background);
    MoveTheorem(s, root, maxDepth, w, dx, dy, free);
  }

  /** Restacking keeps the invariant, and every coherent window coherent. */
  lemma {:induction false} RestackKeeps(s: State, root: Window, background: Window, maxDepth: nat, w: Window, d: Passage)
    requires Fine(s, root, background, maxDepth) && Passes(s, root, maxDepth, w, d)
    ensures var s1 := Restacked(s, w, d);
            && s1.Domains() && Level(s1.tree, maxDepth, w, d.Order()) && TreeOK(s1.tree, root, maxDepth)
            && RootBare(s1, root) && Build(s1.tree, s.place, root) == Shown([], true)
            && (s.place[w].isOpen ==>
                  var s' := RestackResult(s1, maxDepth, w, d.Order(), d.up);
                  && Fine(s', root, background, maxDepth) && s'.tree == s1.tree && s'.content == s.content && s'.place == s.place
                  && (AllCoherent(s) ==> AllCoherent(s')))
            && (!s.place[w].isOpen ==> Fine(s1, root, background, maxDepth) && (AllCoherent(s) ==> AllCoherent(s1)))
  {
    hide Usable, Sound, TreeOK, Shape, PlacesOK, AllShownOK, Build, AllCoherent, RestackResult, Above, Restacked, Passes, RootBare, Level, OnlyAffects, OnlyDiffersAt, Exchanged, Distinct;
    PassedTree(s, root, maxDepth, w, d);
    UsableTree(s, root, maxDepth, w);
    FineParts(s, root, background, maxDepth);
    var s1 := Restacked(s, w, d);
    ParentsKept(s, w, d, background);
    SamePlaces(s.tree, s1.tree, s.place);
    RootBuild(s1.tree, maxDepth, s.place, root, background);
    BareKept(s, s1, root);
    if s.place[w].isOpen { RestackTheorem(s, root, maxDepth, w, d); } else { RestackClosed(s, root, maxDepth, w, d); }
  }

  lemma {:induction false} RestackGood(s: State, s': State, root: Window, background: Window, maxDepth: nat, w: Window, d: Passage)
    requires Fine(s, root, background, maxDepth) && Passes(s, root, maxDepth, w, d) && RestackEnd(s, s', maxDepth, w, d)
    ensures Fine(s', root, background, maxDepth) && s'.place == s.place
    ensures s.Domains() && s'.Domains() && (AllCoherent(s) ==> AllCoherent(s'))
  {
    hide *;
    FineParts(s, root, background, maxDepth);
    RestackEnds(s, s', maxDepth, w, d);
    RestackKeeps(s, root, background, maxDepth, w, d);
    RestackedPlaces(s, w, d);
    FineParts(s', root, background, maxDepth);
  }

  lemma {:induction false} ParentsKept(s: State, w: Window, d: Passage, x: Window)
    requires s.Domains() && w in s.tree && s.tree[w].parent != null && x in s.tree
    ensures x in Restacked(s, w, d).tree && Restacked(s, w, d).tree[x].parent == s.tree[x].parent
  {
  }

  lemma {:induction false} BareKept(s: State, t: State, root: Window)
    requires RootBare(s, root) && t.Domains() && t.shown == s.shown
    ensures RootBare(t, root)
  {
  }

  lemma {:induction false} FineAgain(s: State, t: State, root: Window, background: Window, maxDepth: nat)
    requires Fine(s, root, background, maxDepth) && Sound(t, root, maxDepth) && t.tree == s.tree && t.place == s.place
    ensures Fine(t, root, background, maxDepth)
  {
  }

  /** Redrawing everything keeps the invariant and the coherence, and brings the screen up to date. */
  lemma {:induction false} RedrawAllKeeps(s: State, root: Window, background: Window, maxDepth: nat)
    requires Fine(s, root, background, maxDepth)
    ensures Shape(s.tree, maxDepth) && root in s.tree
    ensures var s' := Fold(s, RedrawIfDirty, Pre(s.tree, maxDepth, {}, root));
            && Fine(s', root, background, maxDepth) && s'.tree == s.tree && s'.place == s.place && s'.content == s.content
            && (AllCoherent(s) ==> AllCoherent(s') && Sound(s', root, maxDepth) && UpToDate(s', root, maxDepth))
  {
    hide Fold, Sound, TreeOK, Shape, Pre, AllCoherent, UpToDate;
    FineParts(s, root, background, maxDepth);
    FoldFrame(s, RedrawIfDirty, Pre(s.tree, maxDepth, {}, root));
    var s' := Fold(s, RedrawIfDirty, Pre(s.tree, maxDepth, {}, root));
    SoundFrame(s, s', root, maxDepth);
    FineAgain(s, s', root, background, maxDepth);
    if AllCoherent(s) { RedrawAllTheorem(s, root, maxDepth); }
  }

  lemma {:induction false} SoundFrame(s: State, t: State, root: Window, maxDepth: nat)
    requires Sound(s, root, maxDepth) && t.Domains() && t.tree == s.tree && t.place == s.place && t.shown == s.shown
    ensures Sound(t, root, maxDepth)
  {
  }

  // ----- The state that window_init sets up -----

  /** The root, shown nowhere, and the background, shown everywhere with a copy of the screen. */
  ghost function Initial(root: Window, background: Window, all: Rect, screen: Picture, copy: Picture): State {
    State(map[root := Node(null, null, null, background, [background], 0), background := Node(null, null, root, null, [], 1)],
          map[root := Place(all, all, all, true), background := Place(all, all, all, true)],
          map[root := Shown([], true), background := Shown([all], false)],
          map[root := Store(screen, false, Rect(0, 0, 0, 0)), background := Store(copy, false, Rect(0, 0, 0, 0))],
          map[root := screen, background := copy], screen)
  }

  lemma {:induction false} InitialTree(root: Window, background: Window, all: Rect, screen: Picture, copy: Picture)
    requires root != background
    ensures TreeOK(Initial(root, background, all, screen, copy).tree, root, 1)
  {
    var t := Initial(root, background, all, screen, copy).tree;
    assert KidsOK(t, root, 1) && KidsOK(t, background, 1) && ParentOK(t, background);
  }

  lemma {:induction false} InitialVisible(root: Window, background: Window, all: Rect, screen: Picture, copy: Picture, p: Pixel)
    requires root != background && all.Positive()
    ensures var s := Initial(root, background, all, screen, copy);
            (Vis(s.tree, s.place, background, p) <==> all.Has(p)) && !Vis(s.tree, s.place, root, p)
  {
    var s := Initial(root, background, all, screen, copy);
    assert HasParent(s.tree, background) && !HasParent(s.tree, root);
    assert LeftOf(s.tree, background) == [] && LeftOf(s.tree, root) == [];
    assert AllOpen(s.tree, s.place, root) && AllOpen(s.tree, s.place, background);
    assert Reach(s.tree, s.place, root, p);
    assert Reach(s.tree, s.place, background, p) <==> all.Has(p);
    assert background in s.tree[root].kids;
  }

  lemma {:induction false} InitialSound(root: Window, background: Window, all: Rect, screen: Picture, copy: Picture)
    requires root != background && all.Positive() && all.x0 == 0 && all.y0 == 0
    ensures Fine(Initial(root, background, all, screen, copy), root, background, 1)
  {
    hide *;
    var s := Initial(root, background, all, screen, copy);
    InitialTree(root, background, all, screen, copy);
    InitialShown(root, background, all, screen, copy, root);
    InitialShown(root, background, all, screen, copy, background);
    InitialFields(root, background, all, screen, copy);
    InitialPlaces(s.tree, s.place, all);
    MakeSound(s, root, 1);
    MakeFine(s, root, background, 1);
  }

  lemma {:induction false} InitialFields(root: Window, background: Window, all: Rect, screen: Picture, copy: Picture)
    requires root != background
    ensures var s := Initial(root, background, all, screen, copy);
            && s.Domains() && (forall x :: x in s.tree ==> x == root || x == background) && s.tree.Keys == s.place.Keys
            && (forall x :: x in s.place ==> s.place[x] == Place(all, all, all, true))
            && RootCovered(s.tree, s.place, root, background)
  {
  }

  lemma {:induction false} MakeFine(s: State, root: Window, background: Window, maxDepth: nat)
    requires Sound(s, root, maxDepth) && root != background && RootCovered(s.tree, s.place, root, background)
    ensures Fine(s, root, background, maxDepth)
  {
  }

  lemma {:induction false} InitialShown(root: Window, background: Window, all: Rect, screen: Picture, copy: Picture, x: Window)
    requires root != background && all.Positive() && (x == root || x == background)
    ensures var s := Initial(root, background, all, screen, copy);
            x in s.tree && x in s.place && x in s.shown && ShownOK(s.tree, s.place, x, s.shown[x])
  {
    hide Vis;
    forall p ensures var s := Initial(root, background, all, screen, copy);
                     (Vis(s.tree, s.place, background, p) <==> all.Has(p)) && !Vis(s.tree, s.place, root, p) {
      InitialVisible(root, background, all, screen, copy, p);
    }
    assert all in [all] && all.Has(Pixel(all.x0, all.y0));
  }

  lemma {:induction false} InitialPlaces(t: Tree, pl: Places, all: Rect)
    requires t.Keys == pl.Keys && all.Positive() && all.x0 == 0 && all.y0 == 0 && forall x :: x in pl ==> pl[x] == Place(all, all, all, true)
    ensures PlacesOK(t, pl)
  {
    forall x | x in pl ensures PlaceOK(pl[x]) {}
  }

  /** The initial state is in order, and coherent when the copy agrees with the screen. */
  lemma {:induction false} InitialOK(root: Window, background: Window, all: Rect, screen: Picture, copy: Picture)
    requires root != background && all.Positive() && all.x0 == 0 && all.y0 == 0 && forall p :: all.Has(p) ==> copy(p) == screen(p)
    ensures var s := Initial(root, background, all, screen, copy);
            Fine(s, root, background, 1) && AllCoherent(s)
  {
    hide Fine;
    var s := Initial(root, background, all, screen, copy);
    InitialSound(root, background, all, screen, copy);
    forall p: Pixel ensures p.Plus(0, 0) == p {}
    forall x | x in s.tree ensures Coherent(s, x) {
      if x == root { assert Coherent(s, root); } else { assert Coherent(s, background); }
    }
  }
}
