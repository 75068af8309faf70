/** window_open (server/window.c:1048-1126): the state it leaves. */
module Opening {
  import opened Geometry
  import opened WindowTree
  import opened Orders
  import opened Visibility
  import opened VisibleRects
  import opened Changes
  import opened Steps
  import opened Visitors
  import opened Backing
  import opened Coherence
  import opened Phases

  /** A window other than the root in a state that is in order. */
  ghost predicate Usable(s: State, root: Window, maxDepth: nat, w: Window) {
    && Sound(s, root, maxDepth) && w in s.tree && w != root
    && s.tree[w].parent != null && s.tree[w].parent in s.tree
    && (s.tree[w].next != null ==> s.tree[w].next in s.tree)
    && (s.tree[w].childs != null ==> s.tree[w].childs in s.tree)
  }

  lemma {:induction false} UsableTree(s: State, root: Window, maxDepth: nat, w: Window)
    requires Usable(s, root, maxDepth, w)
    ensures Sound(s, root, maxDepth) && TreeOK(s.tree, root, maxDepth) && Shape(s.tree, maxDepth) && PlacesOK(s.tree, s.place)
    ensures s.Domains() && s.tree.Keys == s.place.Keys == s.shown.Keys == s.store.Keys == s.content.Keys
    ensures w in s.tree && w != root && s.tree[w].parent != null && s.tree[w].parent in s.tree
    ensures (s.tree[w].next != null ==> s.tree[w].next in s.tree) && (s.tree[w].childs != null ==> s.tree[w].childs in s.tree)
  {
  }

  /** Where the windows are after opening `w` at (x, y): `w` itself is there and open, the
      open windows below it have moved along. */
  ghost function Opened(t: Tree, pl: Places, w: Window, x: int, y: int): (m: Places)
    requires w in pl
    ensures m.Keys == pl.Keys
  {
    var dx, dy := x - pl[w].pos.x0, y - pl[w].pos.y0;
    map v | v in pl :: if v == w then Moved(pl[v], dx, dy).(isOpen := true)
                       else if Above(t, w, v) && pl[v].isOpen then Moved(pl[v], dx, dy) else pl[v]
  }

  /** The state of window_open just before it rebuilds rectangle lists. */
  ghost function OpenPlaced(s: State, root: Window, maxDepth: nat, w: Window, x: int, y: int): State
    requires Usable(s, root, maxDepth, w)
  {
    var pl := Opened(s.tree, s.place, w, x, y);
    s.(place := pl, store := SavedStore(s, pl[w].pos, RightAndParent(s.tree, maxDepth, {}, w)))
  }

  /** The state of window_open just before it redraws. */
  ghost function OpenPrepared(s: State, root: Window, maxDepth: nat, w: Window, x: int, y: int): (s': State)
    requires Usable(s, root, maxDepth, w)
    ensures s'.Domains() && s'.tree == s.tree && s'.content == s.content && s'.place == Opened(s.tree, s.place, w, x, y)
  {
    var t := s.tree;
    var pl := Opened(t, s.place, w, x, y);
    var r := pl[w].pos;
    s.(place := pl,
       store := SavedStore(s, r, RightAndParent(t, maxDepth, {}, w)),
       shown := RebuiltShown(t, pl, s.shown, [r], HereAndParent(t, maxDepth, Cut(pl, [r]), w)))
  }

  lemma {:induction false} SavesElsewhere(s: State, s1: State, w: Window, r: Rect, list: seq<Window>)
    requires s.Domains() && w in s.tree && s1.place.Keys == s.place.Keys && s1 == s.(place := s1.place)
    requires forall v :: v in list ==> v in s.tree && s1.place[v] == s.place[v]
    ensures SavedStore(s1, r, list) == SavedStore(s, r, list)
  {
  }

  lemma {:induction false} MovedIsOpened(t: Tree, pl: Places, w: Window, x: int, y: int, list: seq<Window>)
    requires w in pl && forall v :: v in pl ==> (v in list <==> Above(t, w, v) && v != w)
    ensures var dx, dy := x - pl[w].pos.x0, y - pl[w].pos.y0;
            MovedPlaces(pl[w := Moved(pl[w], dx, dy).(isOpen := true)], dx, dy, list) == Opened(t, pl, w, x, y)
  {
  }

  lemma {:induction false} OpenedPlaces(s: State, root: Window, maxDepth: nat, w: Window, x: int, y: int)
    requires Usable(s, root, maxDepth, w)
    ensures var dx, dy := x - s.place[w].pos.x0, y - s.place[w].pos.y0;
            var pl1 := s.place[w := Moved(s.place[w], dx, dy).(isOpen := true)];
            MovedPlaces(pl1, dx, dy, ListPre(s.tree, maxDepth, {}, s.tree[w].childs)) == Opened(s.tree, s.place, w, x, y)
    ensures PlacesOK(s.tree, Opened(s.tree, s.place, w, x, y))
  {
    hide Usable, Sound, TreeOK, Shape, AllShownOK, PlacesOK, Distinct, Above, MovedPlaces, ListPre;
    UsableTree(s, root, maxDepth, w);
    KidsVisits(s.tree, maxDepth, root, w);
    MovedIsOpened(s.tree, s.place, w, x, y, ListPre(s.tree, maxDepth, {}, s.tree[w].childs));
    PlacesMoved(s.tree, s.place, Opened(s.tree, s.place, w, x, y), x - s.place[w].pos.x0, y - s.place[w].pos.y0);
  }

  /** window_open after its assignments to pos, work and is_open */
  ghost function OpenStart(s: State, w: Window, x: int, y: int): (s': State)
    requires s.Domains() && w in s.tree
    ensures s'.Domains() && s' == s.(place := s'.place) && s'.place[w] == Opened(s.tree, s.place, w, x, y)[w]
  {
    s.(place := s.place[w := Moved(s.place[w], x - s.place[w].pos.x0, y - s.place[w].pos.y0).(isOpen := true)])
  }

  /** ... and after saving what may be covered */
  ghost function OpenSaved(s: State, root: Window, maxDepth: nat, w: Window, x: int, y: int): (s': State)
    requires Usable(s, root, maxDepth, w)
    ensures s'.Domains() && s'.tree == s.tree && s'.shown == s.shown && s'.place == OpenStart(s, w, x, y).place
  {
    OpenStart(s, w, x, y).(store := SavedStore(s, Opened(s.tree, s.place, w, x, y)[w].pos, RightAndParent(s.tree, maxDepth, {}, w)))
  }

  lemma {:induction false} OpenSaves(s: State, root: Window, maxDepth: nat, w: Window, x: int, y: int)
    requires Usable(s, root, maxDepth, w)
    ensures var s1 := OpenStart(s, w, x, y);
            Fold(s1, SaveContents(s1.place[w].pos), RightAndParent(s.tree, maxDepth, {}, w)) == OpenSaved(s, root, maxDepth, w, x, y)
  {
    hide Usable, Sound, PlacesOK, AllShownOK, Distinct, Above, Fold, TreeOK, Shape, Opened, SavedStore, RightAndParent;
    UsableTree(s, root, maxDepth, w);
    RightVisits(s.tree, maxDepth, {}, root, w);
    AboveSelf(s.tree, w);
    var s1 := OpenStart(s, w, x, y);
    SaveEffect(s1, s1.place[w].pos, RightAndParent(s.tree, maxDepth, {}, w));
    SavesElsewhere(s, s1, w, s1.place[w].pos, RightAndParent(s.tree, maxDepth, {}, w));
  }

  lemma {:induction false} OpenSavedIs(s: State, root: Window, maxDepth: nat, w: Window, x: int, y: int)
    requires Usable(s, root, maxDepth, w)
    ensures var t, dx, dy := OpenSaved(s, root, maxDepth, w, x, y), x - s.place[w].pos.x0, y - s.place[w].pos.y0;
            && OpenPlaced(s, root, maxDepth, w, x, y) == t.(place := Opened(s.tree, s.place, w, x, y))
            && t.place == s.place[w := Moved(s.place[w], dx, dy).(isOpen := true)]
  {
    hide Usable, TreeOK, Shape, SavedStore, RightAndParent;
    UsableTree(s, root, maxDepth, w);
    OpenedAtTop(s.tree, s.place, w, x, y);
  }

  /** The traversal that moves the children along. */
  lemma {:induction false} OpenMoves(s: State, root: Window, maxDepth: nat, w: Window, x: int, y: int)
    requires Usable(s, root, maxDepth, w)
    ensures Fold(OpenSaved(s, root, maxDepth, w, x, y), MoveOne(x - s.place[w].pos.x0, y - s.place[w].pos.y0),
                 ListPre(s.tree, maxDepth, {}, s.tree[w].childs)) == OpenPlaced(s, root, maxDepth, w, x, y)
  {
    hide Usable, Sound, PlacesOK, AllShownOK, Distinct, Above, Fold, TreeOK, Shape, Opened, MovedPlaces, SavedStore, ListPre, RightAndParent, OpenSaved, Moved;
    UsableTree(s, root, maxDepth, w);
    OpenSavedIs(s, root, maxDepth, w, x, y);
    KidsVisits(s.tree, maxDepth, root, w);
    OpenedPlaces(s, root, maxDepth, w, x, y);
    MoveEffect(OpenSaved(s, root, maxDepth, w, x, y), x - s.place[w].pos.x0, y - s.place[w].pos.y0,
               ListPre(s.tree, maxDepth, {}, s.tree[w].childs));
  }

  lemma {:induction false} OpenedAtTop(t: Tree, pl: Places, w: Window, x: int, y: int)
    requires w in pl
    ensures Opened(t, pl, w, x, y)[w] == Moved(pl[w], x - pl[w].pos.x0, y - pl[w].pos.y0).(isOpen := true)
  {
  }

  /** ... and with the rebuild. */
  lemma {:induction false} OpenChain(s: State, root: Window, maxDepth: nat, w: Window, x: int, y: int, s3: State)
    requires Usable(s, root, maxDepth, w) && s3 == OpenPlaced(s, root, maxDepth, w, x, y)
    ensures s3.Domains() && s3.tree == s.tree && s3.place == Opened(s.tree, s.place, w, x, y) && s3.shown == s.shown
    ensures s3.place[w].pos == s.place[w].pos.Shift(x - s.place[w].pos.x0, y - s.place[w].pos.y0)
    ensures var v := RebuildRecs([s3.place[w].pos]);
            Fold(s3, v, HereAndParent(s.tree, maxDepth, Turns(s3, v), w)) == OpenPrepared(s, root, maxDepth, w, x, y)
  {
    hide Usable, Sound, PlacesOK, AllShownOK, Distinct, Above, Fold, Apply, TreeOK, Shape, Opened, MovedPlaces, SavedStore, ListPre, RightAndParent, HereAndParent, Cut, RebuiltShown, Rebuilt;
    UsableTree(s, root, maxDepth, w);
    var t, r := s.tree, s3.place[w].pos;
    OpenedAtTop(t, s.place, w, x, y);
    HereVisits(t, maxDepth, Cut(s3.place, [r]), root, w);
    RebuildEffect(s3, [r], HereAndParent(t, maxDepth, Cut(s3.place, [r]), w));
  }

  /** After the rebuild the rectangles are in order again. */
  lemma {:induction false} OpenSound(s: State, root: Window, maxDepth: nat, w: Window, x: int, y: int)
    requires Usable(s, root, maxDepth, w) && !s.place[w].isOpen
    ensures Sound(OpenPrepared(s, root, maxDepth, w, x, y), root, maxDepth)
  {
    hide TreeOK, Shape, Cut, HereAndParent, SavedStore;
    var t, pl := s.tree, Opened(s.tree, s.place, w, x, y);
    var s4 := OpenPrepared(s, root, maxDepth, w, x, y);
    OpenedPlaces(s, root, maxDepth, w, x, y);
    HereVisits(t, maxDepth, Cut(pl, [pl[w].pos]), root, w);
    var visited := HereAndParent(t, maxDepth, Cut(pl, [pl[w].pos]), w);
    AboveSelf(t, w);
    forall v | v in t ensures ShownOK(t, pl, v, s4.shown[v]) {
      OpenRestores(t, maxDepth, s.place, pl, w, visited, s.shown, s4.shown, v);
    }
  }

  lemma {:induction false} AboveSelf(t: Tree, w: Window)
    requires w in t
    ensures Above(t, w, w)
  {
  }

  lemma {:induction false} OpenInside(s: State, root: Window, maxDepth: nat, w: Window, x: int, y: int, v: Window)
    requires Usable(s, root, maxDepth, w) && !s.place[w].isOpen && v in s.tree && Coherent(s, v) && Above(s.tree, w, v)
    ensures var s4, list := OpenPrepared(s, root, maxDepth, w, x, y), Pre(s.tree, maxDepth, {}, w);
            s4.Domains() && Ready(s4, [s4.place[w].pos], list, v) && !Stale(s4, [s4.place[w].pos], list, v)
  {
    hide TreeOK, Shape;
    var t, s4 := s.tree, OpenPrepared(s, root, maxDepth, w, x, y);
    OpenSound(s, root, maxDepth, w, x, y);
    ClosedBelow(t, s.place, w, v);
    assert ShownOK(t, s.place, v, s.shown[v]);
    NothingShown(t, s.place, v, s.shown[v]);
    RightVisits(t, maxDepth, {}, root, w);
    BitmapMoved(s, s4, v);
    PreMembers(t, maxDepth, w, v);
    InsideReady(s4, w, root, maxDepth, [s4.place[w].pos], Pre(t, maxDepth, {}, w), v);
  }

  lemma {:induction false} OpenOutside(s: State, root: Window, maxDepth: nat, w: Window, x: int, y: int, v: Window)
    requires Usable(s, root, maxDepth, w) && !s.place[w].isOpen && v in s.tree && Coherent(s, v) && !Above(s.tree, w, v)
    ensures var s4, list := OpenPrepared(s, root, maxDepth, w, x, y), Pre(s.tree, maxDepth, {}, w);
            s4.Domains() && Ready(s4, [s4.place[w].pos], list, v) && !Stale(s4, [s4.place[w].pos], list, v)
  {
    hide TreeOK, Shape;
    var t, s4 := s.tree, OpenPrepared(s, root, maxDepth, w, x, y);
    var r := s4.place[w].pos;
    var saves, list := RightAndParent(t, maxDepth, {}, w), Pre(t, maxDepth, {}, w);
    OpenSound(s, root, maxDepth, w, x, y);
    RightVisits(t, maxDepth, {}, root, w);
    AboveSelf(t, w);
    PlaceChangeAffects(t, maxDepth, s.place, s4.place, w);
    assert ShownOK(t, s.place, v, s.shown[v]);
    ShownFully(s, v);
    SavedHere(s, s4, r, saves, v);
    PreMembers(t, maxDepth, w, v);
    forall p | Uncovers(t, s4.place, t, s.place, w, v, p) ensures v in saves && r.Has(p) {
      UncoveredVisited(t, maxDepth, root, s4.place, s.place, w, v, p);
    }
    forall p ensures !Uncovers(t, s.place, t, s4.place, w, v, p) {
      ClosedUncoversNothing(t, s.place, s4.place, w, v, p);
    }
    OutsideReady(s, s4, w, root, maxDepth, r, v in saves, [r], list, v);
    OutsideNotStale(s, s4, w, root, maxDepth, r, v in saves, [r], list, v);
  }

  lemma {:induction false} ClosedUncoversNothing(t: Tree, pl0: Places, pl1: Places, w: Window, v: Window, p: Pixel)
    requires w in t && w in pl0 && w in pl1 && !pl0[w].isOpen
    ensures !Uncovers(t, pl0, t, pl1, w, v, p)
  {
  }

  /** The state that window_open leaves. */
  ghost function OpenResult(s: State, root: Window, maxDepth: nat, w: Window, x: int, y: int): State
    requires Usable(s, root, maxDepth, w)
  {
    var t := OpenPrepared(s, root, maxDepth, w, x, y);
    Fold(t, RedrawContents([t.place[w].pos]), Pre(s.tree, maxDepth, {}, w))
  }

  lemma {:induction false} OpenIs(s: State, root: Window, maxDepth: nat, w: Window, x: int, y: int)
    requires Usable(s, root, maxDepth, w)
    ensures var t := OpenPrepared(s, root, maxDepth, w, x, y);
            OpenResult(s, root, maxDepth, w, x, y) == Fold(t, RedrawContents([t.place[w].pos]), Pre(s.tree, maxDepth, {}, w))
  {
  }

  lemma {:induction false} OpenOthers(s: State, root: Window, maxDepth: nat, w: Window, x: int, y: int, v: Window)
    requires Usable(s, root, maxDepth, w) && !s.place[w].isOpen && v in s.tree && Coherent(s, v)
    ensures var t, list := OpenPrepared(s, root, maxDepth, w, x, y), Pre(s.tree, maxDepth, {}, w);
            Ready(t, [t.place[w].pos], list, v) && !Stale(t, [t.place[w].pos], list, v)
  {
    hide *;
    if Above(s.tree, w, v) { OpenInside(s, root, maxDepth, w, x, y, v); } else { OpenOutside(s, root, maxDepth, w, x, y, v); }
  }

  /** window_open keeps everything in order, and every coherent window coherent. */
  lemma {:induction false} OpenTheorem(s: State, root: Window, maxDepth: nat, w: Window, x: int, y: int)
    requires Usable(s, root, maxDepth, w) && !s.place[w].isOpen
    ensures var s' := OpenResult(s, root, maxDepth, w, x, y);
            && Sound(s', root, maxDepth) && s'.tree == s.tree && s'.content == s.content
            && s'.place == Opened(s.tree, s.place, w, x, y)
            && (AllCoherent(s) ==> AllCoherent(s'))
  {
    hide Fold, Usable, Sound, TreeOK, Shape, Opened, Pre, OpenPrepared, PlacesOK, AllShownOK, Coherent, Ready, Stale;
    UsableTree(s, root, maxDepth, w);
    var t, list := OpenPrepared(s, root, maxDepth, w, x, y), Pre(s.tree, maxDepth, {}, w);
    OpenSound(s, root, maxDepth, w, x, y);
    RedrawTheorem(t, root, maxDepth, w, [t.place[w].pos]);
    if AllCoherent(s) {
      forall v | v in s.tree ensures Coherent(OpenResult(s, root, maxDepth, w, x, y), v) {
        assert Coherent(s, v);
        OpenOthers(s, root, maxDepth, w, x, y, v);
      }
    }
  }
}
