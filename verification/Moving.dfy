/** window_move (server/window.c:1367-1472): the state it leaves, and when the screen is
    right afterwards.  `dx`, `dy` is the offset of the move; `free` tells whether the window
    is unhidden, not counting its children, before and after the move. */
module Moving {
  import opened Geometry
  import opened WindowTree
  import opened Orders
  import opened Visibility
  import opened VisibleRects
  import opened Changes
  import opened Steps
  import opened Visitors
  import opened Backing
  import opened Coherence
  import opened Phases
  import opened Opening
  import opened Closing

  // ----- The states that window_move passes through -----

  /** The windows of the subtree have been saved. */
  ghost function MoveSavedHere(s: State, root: Window, maxDepth: nat, w: Window): (s': State)
    requires Usable(s, root, maxDepth, w)
    ensures s'.Domains() && s' == s.(store := s'.store)
  {
    s.(store := SavedStore(s, s.place[w].pos, Pre(s.tree, maxDepth, {}, w)))
  }

  /** So have those that the window is going to cover. */
  ghost function MoveSaved(s: State, root: Window, maxDepth: nat, w: Window, dx: int, dy: int): (s': State)
    requires Usable(s, root, maxDepth, w)
    ensures s'.Domains() && s' == s.(store := s'.store)
  {
    var s1 := MoveSavedHere(s, root, maxDepth, w);
    s1.(store := SavedStore(s1, s.place[w].pos.Shift(dx, dy), RightAndParent(s.tree, maxDepth, {}, w)))
  }

  /** The places after the move. */
  ghost function MovedTo(t: Tree, pl: Places, w: Window, dx: int, dy: int): (m: Places)
    requires w in pl
    ensures m.Keys == pl.Keys
  {
    map x | x in pl :: if Above(t, w, x) && pl[x].isOpen then Moved(pl[x], dx, dy) else pl[x]
  }

  /** The subtree is in its new place. */
  ghost function MovePlaced(s: State, root: Window, maxDepth: nat, w: Window, dx: int, dy: int): (s': State)
    requires Usable(s, root, maxDepth, w)
    ensures s'.Domains() && s'.tree == s.tree && s'.place == MovedTo(s.tree, s.place, w, dx, dy) && s'.shown == s.shown
    ensures s' == MoveSaved(s, root, maxDepth, w, dx, dy).(place := s'.place)
  {
    MoveSaved(s, root, maxDepth, w, dx, dy).(place := MovedTo(s.tree, s.place, w, dx, dy))
  }

  /** The rectangles of a freely moving subtree have been shifted. */
  ghost function MoveShifted(s: State, root: Window, maxDepth: nat, w: Window, dx: int, dy: int, free: bool): (s': State)
    requires Usable(s, root, maxDepth, w)
    ensures s'.Domains() && s' == MovePlaced(s, root, maxDepth, w, dx, dy).(shown := s'.shown)
  {
    var s3 := MovePlaced(s, root, maxDepth, w, dx, dy);
    if free then s3.(shown := ShiftedShown(s3.place, s3.shown, dx, dy, Pre(s.tree, maxDepth, {}, w))) else s3
  }

  /** Where the window was and where it is. */
  ghost function BothPos(s: State, w: Window, dx: int, dy: int): seq<Rect>
    requires w in s.place
  {
    [s.place[w].pos, s.place[w].pos.Shift(dx, dy)]
  }

  /** The windows to rebuild. */
  ghost function MoveVisits(t: Tree, maxDepth: nat, cut: set<Window>, w: Window, free: bool): seq<Window>
    requires Shape(t, maxDepth) && w in t && t[w].parent != null && (t[w].next != null ==> t[w].next in t)
  {
    if free then RightAndParent(t, maxDepth, cut, w) else HereAndParent(t, maxDepth, cut, w)
  }

  /** All rectangles have been rebuilt. */
  ghost function MovePrepared(s: State, root: Window, maxDepth: nat, w: Window, dx: int, dy: int, free: bool): (s': State)
    requires Usable(s, root, maxDepth, w)
    ensures s'.Domains() && s' == MoveShifted(s, root, maxDepth, w, dx, dy, free).(shown := s'.shown)
  {
    var s4, rs := MoveShifted(s, root, maxDepth, w, dx, dy, free), BothPos(s, w, dx, dy);
    s4.(shown := RebuiltShown(s.tree, s4.place, s4.shown, rs, MoveVisits(s.tree, maxDepth, Cut(s4.place, rs), w, free)))
  }

  /** The window has appeared at its new place: copied on the screen, or redrawn. */
  ghost function MoveDrawn(s: State, root: Window, maxDepth: nat, w: Window, dx: int, dy: int, free: bool): (s': State)
    requires Usable(s, root, maxDepth, w)
    ensures s'.Domains() && s'.tree == s.tree
  {
    var s5, r := MovePrepared(s, root, maxDepth, w, dx, dy, free), s.place[w].pos;
    if free then s5.(screen := BitBlk(s5.screen, r, s5.screen, r.x0 + dx, r.y0 + dy))
    else Fold(s5, RedrawContents([r.Shift(dx, dy)]), Pre(s.tree, maxDepth, {}, w))
  }

  /** The uncovered area has been redrawn. */
  ghost function MoveResult(s: State, root: Window, maxDepth: nat, w: Window, dx: int, dy: int, free: bool): (s': State)
    requires Usable(s, root, maxDepth, w)
    ensures s'.Domains() && s'.tree == s.tree
  {
    Fold(MoveDrawn(s, root, maxDepth, w, dx, dy, free), RedrawContents([s.place[w].pos]), RightAndParent(s.tree, maxDepth, {}, w))
  }

  // ----- The traversals reach these states -----

  lemma {:induction false} MoveSaves(s: State, root: Window, maxDepth: nat, w: Window, dx: int, dy: int)
    requires Usable(s, root, maxDepth, w)
    ensures var s1 := MoveSavedHere(s, root, maxDepth, w);
            && Fold(s, SaveContents(s.place[w].pos), Pre(s.tree, maxDepth, {}, w)) == s1
            && Fold(s1, SaveContents(s.place[w].pos.Shift(dx, dy)), RightAndParent(s.tree, maxDepth, {}, w))
               == MoveSaved(s, root, maxDepth, w, dx, dy)
  {
    hide Usable, Sound, PlacesOK, AllShownOK, Distinct, Above, Fold, TreeOK, Shape, SavedStore, RightAndParent, Pre;
    UsableTree(s, root, maxDepth, w);
    PreDistinct(s.tree, maxDepth, {}, w);
    RightVisits(s.tree, maxDepth, {}, root, w);
    SaveEffect(s, s.place[w].pos, Pre(s.tree, maxDepth, {}, w));
    SaveEffect(MoveSavedHere(s, root, maxDepth, w), s.place[w].pos.Shift(dx, dy), RightAndParent(s.tree, maxDepth, {}, w));
  }

  lemma {:induction false} MovedToIs(t: Tree, pl: Places, w: Window, dx: int, dy: int, list: seq<Window>)
    requires w in pl && forall x :: x in pl ==> (x in list <==> Above(t, w, x))
    ensures MovedPlaces(pl, dx, dy, list) == MovedTo(t, pl, w, dx, dy)
  {
  }

  lemma {:induction false} PreIsBelow(t: Tree, maxDepth: nat, w: Window)
    requires Shape(t, maxDepth) && w in t
    ensures Distinct(Pre(t, maxDepth, {}, w)) && forall x :: x in Pre(t, maxDepth, {}, w) ==> x in t
    ensures forall x :: x in t ==> (x in Pre(t, maxDepth, {}, w) <==> Above(t, w, x))
  {
    PreDistinct(t, maxDepth, {}, w);
    forall x | x in t ensures x in Pre(t, maxDepth, {}, w) <==> Above(t, w, x) { PreMembers(t, maxDepth, w, x); }
    PreAbove(t, maxDepth, {}, w);
    forall x | x in Pre(t, maxDepth, {}, w) ensures x in t { AboveDepth(t, w, x); }
  }

  lemma {:induction false} MoveMoves(s: State, root: Window, maxDepth: nat, w: Window, dx: int, dy: int)
    requires Usable(s, root, maxDepth, w)
    ensures Fold(MoveSaved(s, root, maxDepth, w, dx, dy), MoveOne(dx, dy), Pre(s.tree, maxDepth, {}, w))
            == MovePlaced(s, root, maxDepth, w, dx, dy)
  {
    hide Usable, Sound, PlacesOK, AllShownOK, Distinct, Above, Fold, TreeOK, Shape, MoveSaved, MovedPlaces, MovedTo, Pre;
    UsableTree(s, root, maxDepth, w);
    PreIsBelow(s.tree, maxDepth, w);
    MoveEffect(MoveSaved(s, root, maxDepth, w, dx, dy), dx, dy, Pre(s.tree, maxDepth, {}, w));
    MovedToIs(s.tree, s.place, w, dx, dy, Pre(s.tree, maxDepth, {}, w));
  }

  lemma {:induction false} MoveShifts(s: State, root: Window, maxDepth: nat, w: Window, dx: int, dy: int)
    requires Usable(s, root, maxDepth, w)
    ensures Fold(MovePlaced(s, root, maxDepth, w, dx, dy), MoveRecs(dx, dy), Pre(s.tree, maxDepth, {}, w))
            == MoveShifted(s, root, maxDepth, w, dx, dy, true)
    ensures MovePlaced(s, root, maxDepth, w, dx, dy) == MoveShifted(s, root, maxDepth, w, dx, dy, false)
  {
    hide Usable, Sound, PlacesOK, AllShownOK, Distinct, Above, Fold, TreeOK, Shape, MovePlaced, ShiftedShown, Pre;
    UsableTree(s, root, maxDepth, w);
    PreIsBelow(s.tree, maxDepth, w);
    ShiftEffect(MovePlaced(s, root, maxDepth, w, dx, dy), dx, dy, Pre(s.tree, maxDepth, {}, w));
  }

  lemma {:induction false} MoveVisited(t: Tree, maxDepth: nat, cut: set<Window>, root: Window, w: Window, free: bool)
    requires TreeOK(t, root, maxDepth) && w in t && w != root
    ensures t[w].parent != null && (t[w].next != null ==> t[w].next in t)
    ensures var list := MoveVisits(t, maxDepth, cut, w, free);
            && Distinct(list) && (forall x :: x in list ==> x in t) && t[w].parent in list
            && (free ==> forall x :: x in list ==> !Above(t, w, x))
            && (!free ==> forall x :: x in Pre(t, maxDepth, cut, w) ==> x in list)
            && (forall a :: a in RightOf(t, w) ==> a in t && forall x :: x in Pre(t, maxDepth, cut, a) ==> x in list)
  {
    RightVisits(t, maxDepth, cut, root, w);
    HereVisits(t, maxDepth, cut, root, w);
  }

  lemma {:induction false} MoveChain(s: State, root: Window, maxDepth: nat, w: Window, dx: int, dy: int, free: bool)
    requires Usable(s, root, maxDepth, w)
    ensures var t, v := MoveShifted(s, root, maxDepth, w, dx, dy, free), RebuildRecs(BothPos(s, w, dx, dy));
            Fold(t, v, MoveVisits(s.tree, maxDepth, Turns(t, v), w, free)) == MovePrepared(s, root, maxDepth, w, dx, dy, free)
  {
    hide Usable, Sound, PlacesOK, AllShownOK, Distinct, Above, Fold, TreeOK, Shape, MoveShifted, Cut, MoveVisits, RebuiltShown, Rebuilt;
    UsableTree(s, root, maxDepth, w);
    var t, rs := MoveShifted(s, root, maxDepth, w, dx, dy, free), BothPos(s, w, dx, dy);
    MoveVisited(s.tree, maxDepth, Cut(t.place, rs), root, w, free);
    RebuildEffect(t, rs, MoveVisits(s.tree, maxDepth, Cut(t.place, rs), w, free));
  }

  // ----- After the rebuild the rectangles are in order -----

  lemma {:induction false} MovedToOK(s: State, root: Window, maxDepth: nat, w: Window, dx: int, dy: int)
    requires Usable(s, root, maxDepth, w) && s.place[w].isOpen
    ensures var pl := MovedTo(s.tree, s.place, w, dx, dy);
            && PlacesOK(s.tree, pl) && SubtreeMoved(s.tree, w, dx, dy, s.place, pl)
            && pl[w] == Moved(s.place[w], dx, dy) && BothPos(s, w, dx, dy) == [s.place[w].pos, pl[w].pos]
            && (forall x :: x in s.tree && !Above(s.tree, w, x) ==> pl[x] == s.place[x])
  {
    hide TreeOK, Shape, Above;
    AboveSelf(s.tree, w);
    PlacesMoved(s.tree, s.place, MovedTo(s.tree, s.place, w, dx, dy), dx, dy);
  }

  lemma {:induction false} ShiftedIs(t: Tree, pl: Places, w: Window, sh: map<Window, Shown>, dx: int, dy: int, list: seq<Window>)
    requires t.Keys == pl.Keys == sh.Keys && forall x :: x in t ==> (x in list <==> Above(t, w, x))
    ensures SubtreeShifted(t, w, dx, dy, pl, sh, ShiftedShown(pl, sh, dx, dy, list))
  {
    hide Above;
  }

  lemma {:induction false} MoveSound(s: State, root: Window, maxDepth: nat, w: Window, dx: int, dy: int, free: bool)
    requires Usable(s, root, maxDepth, w) && s.place[w].isOpen
    requires free ==> FreeMove(s.tree, s.place, MovedTo(s.tree, s.place, w, dx, dy), w)
    ensures Sound(MovePrepared(s, root, maxDepth, w, dx, dy, free), root, maxDepth)
  {
    hide Usable, TreeOK, Shape, PlacesOK, Distinct, Above, MovedTo, FreeMove, MovePlaced, MoveVisits, Cut, Pre, ShiftedShown, RebuiltShown, Rebuilt, SubtreeMoved, SubtreeShifted, ShownOK;
    UsableTree(s, root, maxDepth, w);
    MovedToOK(s, root, maxDepth, w, dx, dy);
    PreIsBelow(s.tree, maxDepth, w);
    var t, pl, rs := s.tree, MovedTo(s.tree, s.place, w, dx, dy), BothPos(s, w, dx, dy);
    var s4, s5 := MoveShifted(s, root, maxDepth, w, dx, dy, free), MovePrepared(s, root, maxDepth, w, dx, dy, free);
    MoveVisited(t, maxDepth, Cut(pl, rs), root, w, free);
    var visited := MoveVisits(t, maxDepth, Cut(pl, rs), w, free);
    RebuildEffect(s4, rs, visited);
    if free { ShiftedIs(t, pl, w, s.shown, dx, dy, Pre(t, maxDepth, {}, w)); }
    forall v | v in t ensures ShownOK(t, pl, v, s5.shown[v]) {
      if free {
        FreeMoveRestores(t, maxDepth, s.place, pl, w, dx, dy, visited, s.shown, s4.shown, s5.shown, v);
      } else {
        MoveRestores(t, maxDepth, s.place, pl, w, dx, dy, visited, s.shown, s5.shown, v);
      }
    }
  }

  // ----- The backing store -----

  lemma {:induction false} MoveStoreAt(s: State, root: Window, maxDepth: nat, w: Window, dx: int, dy: int, free: bool, x: Window)
    requires Usable(s, root, maxDepth, w) && x in s.tree
    ensures var t, r, right := MovePrepared(s, root, maxDepth, w, dx, dy, free), s.place[w].pos.Shift(dx, dy), RightAndParent(s.tree, maxDepth, {}, w);
            && t.content == s.content && t.screen == s.screen && t.tree == s.tree && t.place == MovedTo(s.tree, s.place, w, dx, dy)
            && (Above(s.tree, w, x) ==> t.store[x] == Save(s, x, s.place[w].pos).store[x])
            && (!Above(s.tree, w, x) ==> t.store[x] == SavedStore(s, r, right)[x])
  {
    hide Usable, Sound, PlacesOK, AllShownOK, Distinct, Above, TreeOK, Shape, Pre, RightAndParent, MovedTo, Save;
    UsableTree(s, root, maxDepth, w);
    PreIsBelow(s.tree, maxDepth, w);
    RightVisits(s.tree, maxDepth, {}, root, w);
    var s1 := MoveSavedHere(s, root, maxDepth, w);
    if !Above(s.tree, w, x) { SaveAgree(s, s1, x, s.place[w].pos.Shift(dx, dy)); }
  }

  /** A window of the subtree is saved as a whole. */
  lemma {:induction false} MovedWhole(s: State, t: State, w: Window, x: Window)
    requires s.Domains() && t.Domains() && PlacesOK(s.tree, s.place) && w in s.tree && x in s.tree && x in t.tree && Above(s.tree, w, x)
    requires Coherent(s, x) && ShownOK(s.tree, s.place, x, s.shown[x]) && t.content == s.content
    requires t.store[x] == Save(s, x, s.place[w].pos).store[x]
    requires t.place[x].pos.w == s.place[x].pos.w && t.place[x].pos.h == s.place[x].pos.h
    ensures !t.store[x].isDirty && BitmapWhole(t, x) && t.store[x].dirty == s.store[x].dirty
  {
    var s' := Save(s, x, s.place[w].pos);
    ShownFully(s, x);
    SaveMeaning(s, x, s.place[w].pos);
    if s'.store[x].isDirty {
      assert PlaceOK(s.place[x]);
      var p := Pixel(s.place[x].pos.x0, s.place[x].pos.y0);
      assert s.place[x].pos.Has(p);
      InAncestor(s.tree, s.place, w, x, p);
      IntersectsMeaning(s.place[x].pos, s.place[w].pos);
    } else {
      BitmapMoved(s', t, x);
    }
  }

  /** The exact condition under which a move leaves wrong pixels: the parent's border is
      stale where the window was, and the new position is away from the parent. */
  ghost predicate StaleMove(s: State, w: Window, dx: int, dy: int) {
    StaleBorder(s, w) && s.tree[w].parent in s.place && w in s.place
    && !Intersects(s.place[s.tree[w].parent].pos, s.place[w].pos.Shift(dx, dy))
  }

  lemma {:induction false} MoveOutside(s: State, root: Window, maxDepth: nat, w: Window, dx: int, dy: int, free: bool, x: Window)
    requires Usable(s, root, maxDepth, w) && s.place[w].isOpen && x in s.tree && Coherent(s, x) && !Above(s.tree, w, x)
    requires free ==> FreeMove(s.tree, s.place, MovedTo(s.tree, s.place, w, dx, dy), w)
    ensures var t, rs, list := MovePrepared(s, root, maxDepth, w, dx, dy, free), [s.place[w].pos], RightAndParent(s.tree, maxDepth, {}, w);
            Ready(t, rs, list, x) && (x != s.tree[w].parent ==> !Stale(t, rs, list, x))
            && SavedFor(s, t, x, s.place[w].pos.Shift(dx, dy), x in list) && t.place[x] == s.place[x]
  {
    hide Usable, TreeOK, Shape, PlacesOK, AllShownOK, RightAndParent, MovePrepared, MovedTo, FreeMove, Save, SavedStore, SavedFor, Uncovers, OnlyDiffersAt, Coherent, ShownOK, Stale, Ready;
    UsableTree(s, root, maxDepth, w);
    var t, r0, r1, list := MovePrepared(s, root, maxDepth, w, dx, dy, free), s.place[w].pos, s.place[w].pos.Shift(dx, dy), RightAndParent(s.tree, maxDepth, {}, w);
    MoveSound(s, root, maxDepth, w, dx, dy, free);
    MovedToOK(s, root, maxDepth, w, dx, dy);
    MoveStoreAt(s, root, maxDepth, w, dx, dy, free, x);
    PlaceChangeAffects(s.tree, maxDepth, s.place, t.place, w);
    SavedOutside(s, root, maxDepth, t, r1, list, x);
    forall p | Uncovers(t.tree, t.place, s.tree, s.place, w, x, p) ensures x in list && r1.Has(p) {
      UncoveredVisited(s.tree, maxDepth, root, t.place, s.place, w, x, p);
    }
    forall p | Uncovers(s.tree, s.place, t.tree, t.place, w, x, p) ensures x in list && Covers([r0], p) {
      UncoveredVisited(s.tree, maxDepth, root, s.place, t.place, w, x, p);
      assert r0 in [r0];
    }
    OutsideReady(s, t, w, root, maxDepth, r1, x in list, [r0], list, x);
    if x != s.tree[w].parent {
      forall p | x in list && Covers([r0], p) ensures !Vis(s.tree, s.place, x, p) {
        CoveredInvisible(s.tree, maxDepth, root, s.place, w, {}, x, p);
      }
      OutsideNotStale(s, t, w, root, maxDepth, r1, x in list, [r0], list, x);
    }
  }

  lemma {:induction false} SavedOutside(s: State, root: Window, maxDepth: nat, t: State, r: Rect, list: seq<Window>, x: Window)
    requires Sound(s, root, maxDepth) && t.Domains() && x in s.tree && x in t.tree && Coherent(s, x)
    requires t.store[x] == SavedStore(s, r, list)[x] && t.place[x] == s.place[x] && t.content == s.content
    ensures SavedFor(s, t, x, r, x in list)
  {
    hide TreeOK, Shape, Save, SavedStore, Coherent, SavedFor;
    assert ShownOK(s.tree, s.place, x, s.shown[x]);
    ShownFully(s, x);
    SavedHere(s, t, r, list, x);
  }

  lemma {:induction false} MoveParent(s: State, root: Window, maxDepth: nat, w: Window, dx: int, dy: int, free: bool)
    requires Usable(s, root, maxDepth, w) && s.place[w].isOpen && Coherent(s, s.tree[w].parent)
    requires free ==> FreeMove(s.tree, s.place, MovedTo(s.tree, s.place, w, dx, dy), w)
    ensures var t, rs, list := MovePrepared(s, root, maxDepth, w, dx, dy, free), [s.place[w].pos], RightAndParent(s.tree, maxDepth, {}, w);
            Stale(t, rs, list, s.tree[w].parent) <==> StaleMove(s, w, dx, dy)
  {
    hide Usable, TreeOK, Shape, PlacesOK, RightAndParent, MovePrepared, MovedTo, FreeMove, ShownOK, Above, Distinct;
    UsableTree(s, root, maxDepth, w);
    var t, r, list, up := MovePrepared(s, root, maxDepth, w, dx, dy, free), s.place[w].pos, RightAndParent(s.tree, maxDepth, {}, w), s.tree[w].parent;
    MoveSound(s, root, maxDepth, w, dx, dy, free);
    RightVisits(s.tree, maxDepth, {}, root, w);
    MoveStoreAt(s, root, maxDepth, w, dx, dy, free, up);
    MoveOutside(s, root, maxDepth, w, dx, dy, free, up);
    assert ShownOK(t.tree, t.place, up, t.shown[up]) && ShownOK(s.tree, s.place, up, s.shown[up]);
    if s.store[up].isDirty && !Intersects(s.place[up].pos, r.Shift(dx, dy)) {
      assert t.store[up] == s.store[up];
      StaleParent(s, t, up, r, list);
    }
  }

  // ----- Drawing the window at its new place -----

  /** What must hold before the uncovered area is redrawn. */
  ghost predicate Arrived(s: State, t: State, t1: State, w: Window, rs: seq<Rect>, list: seq<Window>, x: Window)
    requires s.Domains() && t.Domains() && t1.Domains() && s.tree == t.tree == t1.tree && x in s.tree
  {
    && (Above(s.tree, w, x) ==> Coherent(t1, x))
    && (!Above(s.tree, w, x) && Ready(t, rs, list, x) ==> Ready(t1, rs, list, x) && (Stale(t1, rs, list, x) <==> Stale(t, rs, list, x)))
  }

  /** Slow: the subtree is redrawn. */
  lemma {:induction false} MoveRedrawn(s: State, root: Window, maxDepth: nat, w: Window, dx: int, dy: int, x: Window)
    requires Usable(s, root, maxDepth, w) && s.place[w].isOpen && x in s.tree && Coherent(s, x) && Above(s.tree, w, x)
    ensures Coherent(MoveDrawn(s, root, maxDepth, w, dx, dy, false), x)
  {
    hide Usable, TreeOK, Shape, PlacesOK, MovePrepared, MovedTo, ShownOK, Above, Distinct, Pre, Fold, Ready, Stale, Coherent, BitmapWhole, Save;
    UsableTree(s, root, maxDepth, w);
    var t, r := MovePrepared(s, root, maxDepth, w, dx, dy, false), s.place[w].pos.Shift(dx, dy);
    MoveSound(s, root, maxDepth, w, dx, dy, false);
    MovedToOK(s, root, maxDepth, w, dx, dy);
    MoveStoreAt(s, root, maxDepth, w, dx, dy, false, x);
    RedrawTheorem(t, root, maxDepth, w, [r]);
    PreMembers(s.tree, maxDepth, w, x);
    assert ShownOK(s.tree, s.place, x, s.shown[x]);
    MovedWhole(s, t, w, x);
    assert r in [r];
    InsideReady(t, w, root, maxDepth, [r], Pre(s.tree, maxDepth, {}, w), x);
  }

  lemma {:induction false} MoveRedrawsHere(s: State, root: Window, maxDepth: nat, w: Window, dx: int, dy: int, rs: seq<Rect>, list: seq<Window>, x: Window)
    requires Usable(s, root, maxDepth, w) && s.place[w].isOpen && x in s.tree && !Above(s.tree, w, x)
    requires Ready(MovePrepared(s, root, maxDepth, w, dx, dy, false), rs, list, x)
    ensures var t, t1 := MovePrepared(s, root, maxDepth, w, dx, dy, false), MoveDrawn(s, root, maxDepth, w, dx, dy, false);
            Ready(t1, rs, list, x) && (Stale(t1, rs, list, x) <==> Stale(t, rs, list, x))
  {
    hide Usable, TreeOK, Shape, PlacesOK, AllShownOK, MovePrepared, ShownOK, Above, Distinct, Pre, Fold, Ready, Stale, Apart;
    UsableTree(s, root, maxDepth, w);
    var t := MovePrepared(s, root, maxDepth, w, dx, dy, false);
    MoveSound(s, root, maxDepth, w, dx, dy, false);
    PreIsBelow(s.tree, maxDepth, w);
    ShownApart(t, maxDepth, root);
    RedrawLeaves(t, [s.place[w].pos.Shift(dx, dy)], Pre(s.tree, maxDepth, {}, w), rs, list, x);
  }

  /** Copying a rectangle of the screen moves its pixels and keeps those outside its new place. */
  lemma {:induction false} BitBlkAt(src: Picture, r: Rect, dx: int, dy: int, p: Pixel)
    ensures var after := BitBlk(src, r, src, r.x0 + dx, r.y0 + dy);
            (r.Has(p) ==> after(p.Plus(dx, dy)) == src(p)) && (!r.Shift(dx, dy).Has(p) ==> after(p) == src(p))
  {
    var after, to := BitBlk(src, r, src, r.x0 + dx, r.y0 + dy), p.Plus(dx, dy);
    assert to.Plus(r.x0 - (r.x0 + dx), r.y0 - (r.y0 + dy)) == p;
    if r.Has(p) {
      assert Rect(r.x0 + dx, r.y0 + dy, r.w, r.h).Has(to);
      assert after(to) == src(to.Plus(r.x0 - (r.x0 + dx), r.y0 - (r.y0 + dy)));
    }
  }

  lemma {:induction false} ShiftedTwice(d: Rect, x: int, y: int, dx: int, dy: int, p: Pixel)
    ensures d.Shift(x + dx, y + dy).Has(p.Plus(dx, dy)) <==> d.Shift(x, y).Has(p)
    ensures p.Plus(dx, dy).Plus(-(x + dx), -(y + dy)) == p.Plus(-x, -y)
  {
  }

  /** Fast: the screen is copied.  A pixel of the subtree moves along ... */
  lemma {:induction false} CopiedInside(s: State, t1: State, w: Window, dx: int, dy: int, x: Window, p: Pixel)
    requires s.Domains() && t1.Domains() && s.tree == t1.tree && PlacesOK(s.tree, s.place) && x in s.tree && w in s.tree && Above(s.tree, w, x)
    requires ShownOK(s.tree, s.place, x, s.shown[x]) && Coherent(s, x) && s.place[x].isOpen && t1.place[x] == Moved(s.place[x], dx, dy)
    requires t1.content == s.content && t1.store[x].dirty == s.store[x].dirty
    requires t1.shown[x].recs == ShiftRecs(s.shown[x].recs, dx, dy)
    requires var r := s.place[w].pos; t1.screen == BitBlk(s.screen, r, s.screen, r.x0 + dx, r.y0 + dy)
    requires Covers(t1.shown[x].recs, p.Plus(dx, dy)) && !DirtyOnScreen(t1, x).Has(p.Plus(dx, dy))
    ensures t1.screen(p.Plus(dx, dy)) == ContentAt(t1, x, p.Plus(dx, dy))
  {
    hide BitBlk, PlacesOK, Above, ShiftRecs;
    ShiftRecsMeaning(s.shown[x].recs, dx, dy, p);
    InAncestor(s.tree, s.place, w, x, p);
    BitBlkAt(s.screen, s.place[w].pos, dx, dy, p);
    ShiftedTwice(s.store[x].dirty, s.place[x].pos.x0, s.place[x].pos.y0, dx, dy, p);
    assert !DirtyOnScreen(s, x).Has(p);
  }

  /** ... and no other window shows a pixel of the new position. */
  lemma {:induction false} CopiedOutside(t: Tree, root: Window, maxDepth: nat, pl: Places, w: Window, x: Window, q: Pixel)
    requires TreeOK(t, root, maxDepth) && PlacesOK(t, pl) && w in t && pl[w].isOpen && !HiddenFrom(t, pl, pl[w].pos, w)
    requires x in t && !Above(t, w, x) && Vis(t, pl, x, q)
    ensures !pl[w].pos.Has(q)
  {
    if pl[w].pos.Has(q) {
      NotHiddenReaches(t, pl, pl[w].pos, w, q);
      FoundIsVisible(t, maxDepth, pl, w, q);
      var v := FindFrom(t, maxDepth, pl, w, q);
      AboveDepth(t, w, v);
      VisibleOnce(t, maxDepth, pl, root, v, x, q);
    }
  }

  /** What a free move leaves in the rectangle lists of the subtree. */
  lemma {:induction false} FreeShownAt(s: State, root: Window, maxDepth: nat, w: Window, dx: int, dy: int, x: Window)
    requires Usable(s, root, maxDepth, w) && x in s.tree && Above(s.tree, w, x)
    ensures var t := MovePrepared(s, root, maxDepth, w, dx, dy, true);
            && t.shown[x].hidden == s.shown[x].hidden
            && t.place[x] == (if s.place[x].isOpen then Moved(s.place[x], dx, dy) else s.place[x])
            && (s.place[x].isOpen ==> t.shown[x].recs == ShiftRecs(s.shown[x].recs, dx, dy))
  {
    hide Usable, Sound, TreeOK, Shape, PlacesOK, AllShownOK, Above, Distinct, Pre, RightAndParent, Cut;
    UsableTree(s, root, maxDepth, w);
    PreIsBelow(s.tree, maxDepth, w);
    var s4 := MoveShifted(s, root, maxDepth, w, dx, dy, true);
    RightVisits(s.tree, maxDepth, Cut(s4.place, BothPos(s, w, dx, dy)), root, w);
  }

  /** The subtree of `w` has been copied from `s` to `t1`. */
  ghost predicate CopiedAlong(s: State, t1: State, w: Window, dx: int, dy: int, x: Window)
    requires s.Domains() && t1.Domains() && s.tree == t1.tree && x in s.tree && w in s.tree
  {
    && t1.content == s.content
    && (var r := s.place[w].pos; t1.screen == BitBlk(s.screen, r, s.screen, r.x0 + dx, r.y0 + dy))
    && t1.place[x] == (if s.place[x].isOpen then Moved(s.place[x], dx, dy) else s.place[x])
    && t1.shown[x].hidden == s.shown[x].hidden
    && (s.place[x].isOpen ==> t1.shown[x].recs == ShiftRecs(s.shown[x].recs, dx, dy))
    && t1.store[x] == Save(s, x, s.place[w].pos).store[x]
  }

  lemma {:induction false} CopiedCoherent(s: State, t1: State, w: Window, dx: int, dy: int, x: Window)
    requires s.Domains() && t1.Domains() && s.tree == t1.tree && PlacesOK(s.tree, s.place) && x in s.tree && w in s.tree && Above(s.tree, w, x)
    requires ShownOK(s.tree, s.place, x, s.shown[x]) && Coherent(s, x) && CopiedAlong(s, t1, w, dx, dy, x)
    ensures Coherent(t1, x)
  {
    hide BitBlk, PlacesOK, Above, ShiftRecs, ShownOK, Save, BitmapWhole;
    MovedWhole(s, t1, w, x);
    forall q | t1.place[x].isOpen && Covers(t1.shown[x].recs, q) && !DirtyOnScreen(t1, x).Has(q)
      ensures t1.screen(q) == ContentAt(t1, x, q)
    {
      var p := q.Plus(-dx, -dy);
      assert p.Plus(dx, dy) == q;
      CopiedInside(s, t1, w, dx, dy, x, p);
    }
  }

  lemma {:induction false} FreeDrawn(s: State, root: Window, maxDepth: nat, w: Window, dx: int, dy: int)
    requires Usable(s, root, maxDepth, w)
    ensures var t, r := MovePrepared(s, root, maxDepth, w, dx, dy, true), s.place[w].pos;
            MoveDrawn(s, root, maxDepth, w, dx, dy, true) == t.(screen := BitBlk(t.screen, r, t.screen, r.x0 + dx, r.y0 + dy))
  {
    hide Usable, MovePrepared, MoveShifted, MovePlaced, MoveSaved, MoveSavedHere, Fold, BitBlk, Pre, TreeOK, Shape, MovedTo;
  }

  lemma {:induction false} FreeInside(s: State, root: Window, maxDepth: nat, w: Window, dx: int, dy: int, x: Window)
    requires Usable(s, root, maxDepth, w) && s.place[w].isOpen && x in s.tree && Coherent(s, x) && Above(s.tree, w, x)
    ensures Coherent(MoveDrawn(s, root, maxDepth, w, dx, dy, true), x)
  {
    hide Usable, Sound, Fold, Pre, TreeOK, Shape, PlacesOK, MovePrepared, MoveShifted, MovePlaced, MoveSaved, MoveSavedHere, MoveDrawn, MovedTo, ShownOK, Above, Save, BitBlk, Coherent;
    UsableTree(s, root, maxDepth, w);
    var t1 := MoveDrawn(s, root, maxDepth, w, dx, dy, true);
    FreeDrawn(s, root, maxDepth, w, dx, dy);
    MoveStoreAt(s, root, maxDepth, w, dx, dy, true, x);
    FreeShownAt(s, root, maxDepth, w, dx, dy, x);
    SoundAt(s, root, maxDepth, x);
    assert CopiedAlong(s, t1, w, dx, dy, x);
    CopiedCoherent(s, t1, w, dx, dy, x);
  }

  lemma {:induction false} SameOnScreen(t: State, t1: State, rs: seq<Rect>, list: seq<Window>, x: Window)
    requires t.Domains() && x in t.tree && t1 == t.(screen := t1.screen)
    requires forall q :: Covers(t.shown[x].recs, q) ==> t1.screen(q) == t.screen(q)
    ensures Ready(t, rs, list, x) ==> Ready(t1, rs, list, x)
    ensures Stale(t1, rs, list, x) <==> Stale(t, rs, list, x)
  {
    assert forall p :: BitmapAt(t1, x, p) == BitmapAt(t, x, p) && ContentAt(t1, x, p) == ContentAt(t, x, p);
    assert BitmapWhole(t, x) <==> BitmapWhole(t1, x);
  }

  lemma {:induction false} FreeOutside(s: State, root: Window, maxDepth: nat, w: Window, dx: int, dy: int, rs: seq<Rect>, list: seq<Window>, x: Window)
    requires Usable(s, root, maxDepth, w) && s.place[w].isOpen && x in s.tree && !Above(s.tree, w, x)
    requires FreeMove(s.tree, s.place, MovedTo(s.tree, s.place, w, dx, dy), w)
    ensures var t, t1 := MovePrepared(s, root, maxDepth, w, dx, dy, true), MoveDrawn(s, root, maxDepth, w, dx, dy, true);
            (Ready(t, rs, list, x) ==> Ready(t1, rs, list, x)) && (Stale(t1, rs, list, x) <==> Stale(t, rs, list, x))
  {
    hide Usable, Sound, Fold, Pre, TreeOK, Shape, PlacesOK, MovePrepared, MoveShifted, MovePlaced, MoveSaved, MoveSavedHere, MoveDrawn, MovedTo, Above, HiddenFrom, Vis, Ready, Stale, Covers, BitBlk, AllShownOK;
    UsableTree(s, root, maxDepth, w);
    FreeDrawn(s, root, maxDepth, w, dx, dy);
    var t, t1 := MovePrepared(s, root, maxDepth, w, dx, dy, true), MoveDrawn(s, root, maxDepth, w, dx, dy, true);
    MoveSound(s, root, maxDepth, w, dx, dy, true);
    MovedToOK(s, root, maxDepth, w, dx, dy);
    forall q | Covers(t.shown[x].recs, q) ensures t1.screen(q) == t.screen(q) {
      CoveredIsVisible(t, root, maxDepth, x, q);
      CopiedOutside(t.tree, root, maxDepth, t.place, w, x, q);
      BitBlkAt(t.screen, s.place[w].pos, dx, dy, q);
    }
    SameOnScreen(t, t1, rs, list, x);
  }

  lemma {:induction false} MoveArrives(s: State, root: Window, maxDepth: nat, w: Window, dx: int, dy: int, free: bool, rs: seq<Rect>, list: seq<Window>, x: Window)
    requires Usable(s, root, maxDepth, w) && s.place[w].isOpen && x in s.tree && Coherent(s, x)
    requires free ==> FreeMove(s.tree, s.place, MovedTo(s.tree, s.place, w, dx, dy), w)
    ensures var t, t1 := MovePrepared(s, root, maxDepth, w, dx, dy, free), MoveDrawn(s, root, maxDepth, w, dx, dy, free);
            Arrived(s, t, t1, w, rs, list, x)
  {
    hide Usable, TreeOK, Shape, PlacesOK, AllShownOK, MovePrepared, MoveDrawn, MovedTo, ShownOK, Above, Ready, Stale, Coherent, FreeMove;
    if !free {
      if Above(s.tree, w, x) {
        MoveRedrawn(s, root, maxDepth, w, dx, dy, x);
      } else if Ready(MovePrepared(s, root, maxDepth, w, dx, dy, false), rs, list, x) {
        MoveRedrawsHere(s, root, maxDepth, w, dx, dy, rs, list, x);
      }
    } else if Above(s.tree, w, x) {
      FreeInside(s, root, maxDepth, w, dx, dy, x);
    } else if Ready(MovePrepared(s, root, maxDepth, w, dx, dy, true), rs, list, x) {
      FreeOutside(s, root, maxDepth, w, dx, dy, rs, list, x);
    }
  }

  // ----- The whole operation -----

  lemma {:induction false} MoveDrawnSound(s: State, root: Window, maxDepth: nat, w: Window, dx: int, dy: int, free: bool)
    requires Usable(s, root, maxDepth, w) && s.place[w].isOpen
    requires free ==> FreeMove(s.tree, s.place, MovedTo(s.tree, s.place, w, dx, dy), w)
    ensures var t1 := MoveDrawn(s, root, maxDepth, w, dx, dy, free);
            && Sound(t1, root, maxDepth) && t1.tree == s.tree && t1.content == s.content
            && t1.place == MovedTo(s.tree, s.place, w, dx, dy)
  {
    hide Usable, Fold, Pre, TreeOK, Shape, PlacesOK, AllShownOK, MovePrepared, MoveShifted, MovePlaced, MoveSaved, MoveSavedHere, MoveDrawn, MovedTo, FreeMove;
    UsableTree(s, root, maxDepth, w);
    var t := MovePrepared(s, root, maxDepth, w, dx, dy, free);
    MoveSound(s, root, maxDepth, w, dx, dy, free);
    MoveStoreAt(s, root, maxDepth, w, dx, dy, free, w);
    if free {
      FreeDrawn(s, root, maxDepth, w, dx, dy);
    } else {
      SlowDrawn(s, root, maxDepth, w, dx, dy);
      RedrawTheorem(t, root, maxDepth, w, [s.place[w].pos.Shift(dx, dy)]);
    }
  }

  lemma {:induction false} SlowDrawn(s: State, root: Window, maxDepth: nat, w: Window, dx: int, dy: int)
    requires Usable(s, root, maxDepth, w)
    ensures MoveDrawn(s, root, maxDepth, w, dx, dy, false) ==
            Fold(MovePrepared(s, root, maxDepth, w, dx, dy, false), RedrawContents([s.place[w].pos.Shift(dx, dy)]), Pre(s.tree, maxDepth, {}, w))
  {
    hide Usable, MovePrepared, MoveShifted, MovePlaced, MoveSaved, MoveSavedHere, Fold, BitBlk, Pre, TreeOK, Shape, MovedTo;
  }

  lemma {:induction false} MoveIs(s: State, root: Window, maxDepth: nat, w: Window, dx: int, dy: int, free: bool)
    requires Usable(s, root, maxDepth, w)
    ensures MoveResult(s, root, maxDepth, w, dx, dy, free) ==
            Fold(MoveDrawn(s, root, maxDepth, w, dx, dy, free), RedrawContents([s.place[w].pos]), RightAndParent(s.tree, maxDepth, {}, w))
  {
    hide Usable, MoveDrawn, MovePrepared, MoveShifted, MovePlaced, MoveSaved, MoveSavedHere, Fold, BitBlk, Pre, TreeOK, Shape, MovedTo;
  }

  lemma {:induction false} MoveOthers(s: State, root: Window, maxDepth: nat, w: Window, dx: int, dy: int, free: bool, x: Window)
    requires Usable(s, root, maxDepth, w) && s.place[w].isOpen && x in s.tree && Coherent(s, x)
    requires free ==> FreeMove(s.tree, s.place, MovedTo(s.tree, s.place, w, dx, dy), w)
    ensures var t1, rs, list := MoveDrawn(s, root, maxDepth, w, dx, dy, free), [s.place[w].pos], RightAndParent(s.tree, maxDepth, {}, w);
            && Ready(t1, rs, list, x) && (x != s.tree[w].parent ==> !Stale(t1, rs, list, x))
            && (x == s.tree[w].parent ==> (Stale(t1, rs, list, x) <==> StaleMove(s, w, dx, dy)))
  {
    hide Usable, Sound, Fold, Pre, TreeOK, Shape, PlacesOK, AllShownOK, MovePrepared, MoveShifted, MovePlaced, MoveSaved, MoveSavedHere, MoveDrawn, MovedTo, FreeMove;
    hide Above, Ready, Stale, Coherent, SavedFor, StaleMove, StaleBorder, Distinct, RightAndParent;
    UsableTree(s, root, maxDepth, w);
    var t1, rs, list := MoveDrawn(s, root, maxDepth, w, dx, dy, free), [s.place[w].pos], RightAndParent(s.tree, maxDepth, {}, w);
    RightVisits(s.tree, maxDepth, {}, root, w);
    MoveArrives(s, root, maxDepth, w, dx, dy, free, rs, list, x);
    if Above(s.tree, w, x) {
      CoherentReady(t1, rs, list, x);
    } else {
      MoveOutside(s, root, maxDepth, w, dx, dy, free, x);
      if x == s.tree[w].parent { MoveParent(s, root, maxDepth, w, dx, dy, free); }
    }
  }

  /** window_move keeps everything in order.  It keeps the backing store of all windows
      coherent exactly when the parent's border is not stale. */
  lemma {:induction false} MoveTheorem(s: State, root: Window, maxDepth: nat, w: Window, dx: int, dy: int, free: bool)
    requires Usable(s, root, maxDepth, w) && s.place[w].isOpen
    requires free ==> FreeMove(s.tree, s.place, MovedTo(s.tree, s.place, w, dx, dy), w)
    ensures var s' := MoveResult(s, root, maxDepth, w, dx, dy, free);
            && Sound(s', root, maxDepth) && s'.tree == s.tree && s'.content == s.content
            && s'.place == MovedTo(s.tree, s.place, w, dx, dy)
            && (AllCoherent(s) ==> (AllCoherent(s') <==> !StaleMove(s, w, dx, dy)))
  {
    hide *;
    UsableTree(s, root, maxDepth, w);
    var t1, rs, list, up := MoveDrawn(s, root, maxDepth, w, dx, dy, free), [s.place[w].pos], RightAndParent(s.tree, maxDepth, {}, w), s.tree[w].parent;
    MoveDrawnSound(s, root, maxDepth, w, dx, dy, free);
    RightVisits(s.tree, maxDepth, {}, root, w);
    RedrawAny(t1, root, maxDepth, rs, list);
    MoveIs(s, root, maxDepth, w, dx, dy, free);
    var s' := MoveResult(s, root, maxDepth, w, dx, dy, free);
    if AllCoherent(s) {
      forall v | v in s.tree && v != up ensures Coherent(s', v) {
        CoherentAt(s, v);
        MoveOthers(s, root, maxDepth, w, dx, dy, free, v);
      }
      CoherentAt(s, up);
      MoveOthers(s, root, maxDepth, w, dx, dy, free, up);
      CoherentBut(s', up);
    }
  }

  lemma {:induction false} VisitsAre(t: Tree, maxDepth: nat, cut: set<Window>, w: Window, free: bool)
    requires Shape(t, maxDepth) && w in t && t[w].parent != null && (t[w].next != null ==> t[w].next in t)
    ensures MoveVisits(t, maxDepth, cut, w, free) == if free then RightAndParent(t, maxDepth, cut, w) else HereAndParent(t, maxDepth, cut, w)
  {
  }

  lemma {:induction false} BothPosAre(s: State, w: Window, dx: int, dy: int)
    requires w in s.place
    ensures BothPos(s, w, dx, dy) == [s.place[w].pos, s.place[w].pos.Shift(dx, dy)]
  {
  }

  lemma {:induction false} FreeIs(t: Tree, pl0: Places, pl1: Places, w: Window)
    requires w in t && w in pl0 && w in pl1
    ensures FreeMove(t, pl0, pl1, w) <==> !HiddenFrom(t, pl0, pl0[w].pos, w) && !HiddenFrom(t, pl1, pl1[w].pos, w)
  {
  }

  lemma {:induction false} MovedNowhere(t: Tree, pl: Places, w: Window)
    requires w in pl
    ensures MovedTo(t, pl, w, 0, 0) == pl
  {
  }

  lemma {:induction false} ShiftedCorner(r: Rect, dx: int, dy: int)
    ensures r.Shift(dx, dy).x0 == r.x0 + dx && r.Shift(dx, dy).y0 == r.y0 + dy
  {
  }
}
