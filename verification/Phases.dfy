/** The effect of the traversals that an operation consists of. */
module Phases {
  import opened Geometry
  import opened WindowTree
  import opened Orders
  import opened Visibility
  import opened VisibleRects
  import opened Changes
  import opened Steps
  import opened Visitors
  import opened Backing
  import opened Coherence

  /** The right siblings of `w` with their subtrees, and then the parent. */
  ghost function RightAndParent(t: Tree, maxDepth: nat, cut: set<Window>, w: Window): seq<Window>
    requires Shape(t, maxDepth) && w in t && t[w].parent != null && (t[w].next != null ==> t[w].next in t)
  {
    ListPre(t, maxDepth, cut, t[w].next) + [t[w].parent]
  }

  /** `w` and its right siblings with their subtrees, and then the parent. */
  ghost function HereAndParent(t: Tree, maxDepth: nat, cut: set<Window>, w: Window): seq<Window>
    requires Shape(t, maxDepth) && w in t && t[w].parent != null
  {
    ListPre(t, maxDepth, cut, w) + [t[w].parent]
  }

  lemma {:induction false} NextIn(t: Tree, maxDepth: nat, root: Window, w: Window)
    requires TreeOK(t, root, maxDepth) && w in t
    ensures t[w].next != null ==> t[w].next in t
    ensures t[w].childs != null ==> t[w].childs in t
    ensures w != root ==> t[w].parent != null && t[w].parent in t && t[t[w].parent].depth < t[w].depth && HasParent(t, w)
  {
    SiblingLinks(t, maxDepth, root, w);
    RightLevel(t, maxDepth, w);
    assert KidsOK(t, w, maxDepth);
    if w != root {
      assert ParentOK(t, w) && KidsOK(t, t[w].parent, maxDepth);
    }
  }

  lemma {:induction false} RightVisits(t: Tree, maxDepth: nat, cut: set<Window>, root: Window, w: Window)
    requires TreeOK(t, root, maxDepth) && w in t && w != root
    ensures t[w].parent != null && (t[w].next != null ==> t[w].next in t)
    ensures var list := RightAndParent(t, maxDepth, cut, w);
            && Distinct(list) && (forall x :: x in list ==> x in t && !Above(t, w, x)) && t[w].parent in list
            && (forall a :: a in RightOf(t, w) ==> a in t && forall x :: x in Pre(t, maxDepth, cut, a) ==> x in list)
  {
    NextIn(t, maxDepth, root, w);
    SiblingLinks(t, maxDepth, root, w);
    RightLevel(t, maxDepth, w);
    var right := ListPre(t, maxDepth, cut, t[w].next);
    var up := t[w].parent;
    if t[w].next != null {
      var n := t[w].next;
      ListPreVisits(t, maxDepth, cut, root, n);
      assert RightOf(t, w) == [n] + RightOf(t, n);
      forall x | x in right ensures x in t && !Above(t, w, x) && x != up {
        var a :| a in RightOf(t, w) && Above(t, a, x);
        RightMembers(t, maxDepth, w, a);
        AboveDepth(t, a, x);
        if Above(t, w, x) { AboveUnique(t, a, w, x); }
      }
    }
    assert Above(t, w, w);
    if Above(t, w, up) { AboveDepth(t, w, up); }
    ConcatDistinct(right, [up]);
  }

  /** `w`, its right siblings, all with their subtrees, and then the parent. */
  lemma {:induction false} HereVisits(t: Tree, maxDepth: nat, cut: set<Window>, root: Window, w: Window)
    requires TreeOK(t, root, maxDepth) && w in t && w != root
    ensures t[w].parent != null
    ensures var list := HereAndParent(t, maxDepth, cut, w);
            && Distinct(list) && (forall x :: x in list ==> x in t) && t[w].parent in list
            && (forall x :: x in Pre(t, maxDepth, cut, w) ==> x in list)
            && (forall a :: a in RightOf(t, w) ==> a in t && forall x :: x in Pre(t, maxDepth, cut, a) ==> x in list)
  {
    NextIn(t, maxDepth, root, w);
    RightLevel(t, maxDepth, w);
    ListPreVisits(t, maxDepth, cut, root, w);
    var here := ListPre(t, maxDepth, cut, w);
    var up := t[w].parent;
    forall x | x in here ensures x != up {
      var a :| a in [w] + RightOf(t, w) && Above(t, a, x);
      assert t[a].depth == t[w].depth;
      AboveDepth(t, a, x);
    }
    ConcatDistinct(here, [up]);
  }

  // ----- Effects -----

  /** window_save_contents on every window of the list */
  ghost function SavedStore(s: State, r: Rect, list: seq<Window>): (m: map<Window, Store>)
    requires s.Domains()
    ensures m.Keys == s.store.Keys
  {
    map x | x in s.store :: if x in list then Save(s, x, r).store[x] else s.store[x]
  }

  lemma {:induction false} SaveEffect(s: State, r: Rect, list: seq<Window>)
    requires s.Domains() && Distinct(list)
    ensures Fold(s, SaveContents(r), list) == s.(store := SavedStore(s, r, list))
  {
    hide Fold;
    var t := Fold(s, SaveContents(r), list);
    FoldFrame(s, SaveContents(r), list);
    forall x | x in s.tree ensures t.store[x] == SavedStore(s, r, list)[x] {
      if x in list { FoldLocal(s, SaveContents(r), list, x); } else { FoldElsewhere(s, SaveContents(r), list, x); }
    }
  }

  lemma {:induction false} BitmapAgrees(s: State, t: State, x: Window)
    requires s.Domains() && t.Domains() && x in s.tree && x in t.tree
    requires s.place[x] == t.place[x] && s.store[x].bitmap == t.store[x].bitmap && s.content[x] == t.content[x]
    ensures BitmapWhole(s, x) <==> BitmapWhole(t, x)
  {
  }

  /** window_move_one on every window of the list */
  ghost function MovedPlaces(pl: Places, dx: int, dy: int, list: seq<Window>): (m: Places)
    ensures m.Keys == pl.Keys
  {
    map x | x in pl :: if x in list && pl[x].isOpen then Moved(pl[x], dx, dy) else pl[x]
  }

  lemma {:induction false} MoveEffect(s: State, dx: int, dy: int, list: seq<Window>)
    requires s.Domains() && Distinct(list)
    ensures Fold(s, MoveOne(dx, dy), list) == s.(place := MovedPlaces(s.place, dx, dy, list))
  {
    hide Fold;
    var t := Fold(s, MoveOne(dx, dy), list);
    FoldFrame(s, MoveOne(dx, dy), list);
    forall x | x in s.tree ensures t.place[x] == MovedPlaces(s.place, dx, dy, list)[x] {
      if x in list { FoldLocal(s, MoveOne(dx, dy), list, x); } else { FoldElsewhere(s, MoveOne(dx, dy), list, x); }
    }
  }

  /** window_move_recs on every window of the list */
  ghost function ShiftedShown(pl: Places, sh: map<Window, Shown>, dx: int, dy: int, list: seq<Window>): (m: map<Window, Shown>)
    requires pl.Keys == sh.Keys
    ensures m.Keys == sh.Keys
  {
    map x | x in sh :: if x in list && pl[x].isOpen then sh[x].(recs := ShiftRecs(sh[x].recs, dx, dy)) else sh[x]
  }

  lemma {:induction false} ShiftEffect(s: State, dx: int, dy: int, list: seq<Window>)
    requires s.Domains() && Distinct(list)
    ensures Fold(s, MoveRecs(dx, dy), list) == s.(shown := ShiftedShown(s.place, s.shown, dx, dy, list))
  {
    hide Fold;
    var t := Fold(s, MoveRecs(dx, dy), list);
    FoldFrame(s, MoveRecs(dx, dy), list);
    forall x | x in s.tree ensures t.shown[x] == ShiftedShown(s.place, s.shown, dx, dy, list)[x] {
      if x in list { FoldLocal(s, MoveRecs(dx, dy), list, x); } else { FoldElsewhere(s, MoveRecs(dx, dy), list, x); }
    }
  }

  /** window_rebuild_recs on every window of the list */
  ghost function RebuiltShown(t: Tree, pl: Places, sh: map<Window, Shown>, rs: seq<Rect>, list: seq<Window>): (m: map<Window, Shown>)
    requires t.Keys == pl.Keys == sh.Keys
    ensures m.Keys == sh.Keys
  {
    map x | x in sh :: if x in list && Hit(pl, rs, x) then Build(t, pl, x) else sh[x]
  }

  lemma {:induction false} RebuildEffect(s: State, rs: seq<Rect>, list: seq<Window>)
    requires s.Domains() && Distinct(list)
    ensures Fold(s, RebuildRecs(rs), list) == s.(shown := RebuiltShown(s.tree, s.place, s.shown, rs, list))
    ensures Rebuilt(s.tree, s.place, rs, list, s.shown, RebuiltShown(s.tree, s.place, s.shown, rs, list))
  {
    hide Fold, Build;
    var v := RebuildRecs(rs);
    var t := Fold(s, v, list);
    FoldFrame(s, v, list);
    forall x | x in s.tree ensures t.shown[x] == RebuiltShown(s.tree, s.place, s.shown, rs, list)[x] {
      if x in list { FoldLocal(s, v, list, x); } else { FoldElsewhere(s, v, list, x); }
    }
  }

  /** A list traversal over the children visits the subtree without its top. */
  lemma {:induction false} KidsVisits(t: Tree, maxDepth: nat, root: Window, w: Window)
    requires TreeOK(t, root, maxDepth) && w in t
    ensures t[w].childs != null ==> t[w].childs in t
    ensures Distinct(ListPre(t, maxDepth, {}, t[w].childs))
    ensures forall x :: x in t ==> (x in ListPre(t, maxDepth, {}, t[w].childs) <==> Above(t, w, x) && x != w)
  {
    NextIn(t, maxDepth, root, w);
    assert KidsOK(t, w, maxDepth);
    var kids, list := t[w].kids, ListPre(t, maxDepth, {}, t[w].childs);
    if kids != [] {
      ListPreVisits(t, maxDepth, {}, root, kids[0]);
      assert Above(t, w, w);
      FirstKid(t, maxDepth, w, w);
      assert [kids[0]] + RightOf(t, kids[0]) == kids;
    }
    forall x | x in t ensures x in list <==> Above(t, w, x) && x != w {
      if x in list {
        var k :| k in kids && Above(t, k, x);
        KidHasParent(t, maxDepth, w, k);
        AboveTrans(t, w, k, x);
        AboveDepth(t, k, x);
      }
      if Above(t, w, x) && x != w {
        var k := KidTowards(t, maxDepth, w, x);
        KidHasParent(t, maxDepth, w, k);
        PreMembers(t, maxDepth, k, x);
      }
    }
  }

  lemma {:induction false} PlacesMoved(t: Tree, pl0: Places, pl1: Places, dx: int, dy: int)
    requires PlacesOK(t, pl0) && pl1.Keys == pl0.Keys
    requires forall x :: x in pl0 ==> pl1[x] == pl0[x] || pl1[x] == Moved(pl0[x], dx, dy)
                                      || pl1[x] == Moved(pl0[x], dx, dy).(isOpen := true) || pl1[x] == pl0[x].(isOpen := false)
    ensures PlacesOK(t, pl1)
  {
    forall x | x in pl1 ensures PlaceOK(pl1[x]) {
      assert PlaceOK(pl0[x]);
    }
  }

  /** With an unchanged tree, what `w` uncovers lies in `w`, and belongs to windows that the
      unpruned traversal of the right siblings and the parent visits. */
  lemma {:induction false} UncoveredVisited(t: Tree, maxDepth: nat, root: Window, pl0: Places, pl1: Places, w: Window, v: Window, p: Pixel)
    requires TreeOK(t, root, maxDepth) && w in t && w != root && v in t && w in pl0 && w in pl1
    requires Uncovers(t, pl0, t, pl1, w, v, p)
    ensures t[w].parent != null && (t[w].next != null ==> t[w].next in t)
    ensures v in RightAndParent(t, maxDepth, {}, w) && pl0[w].isOpen && pl0[w].pos.Has(p)
  {
    NextIn(t, maxDepth, root, w);
    RightVisits(t, maxDepth, {}, root, w);
    if a :| a in t && Above(t, a, v) && CoveredBy(t, pl0, w, a, p) && !CoveredBy(t, pl1, w, a, p) {
      CoveredAreRight(t, maxDepth, w, a);
      PreMembers(t, maxDepth, a, v);
    }
  }

  /** The store after the saves, in any later state with the same store and the window in
      the same place. */
  lemma {:induction false} SavedHere(s: State, t: State, r: Rect, list: seq<Window>, x: Window)
    requires s.Domains() && t.Domains() && x in s.tree && x in t.tree && Coherent(s, x) && FullyShown(s, x)
    requires t.store[x] == SavedStore(s, r, list)[x] && t.place[x] == s.place[x] && t.content == s.content
    ensures SavedFor(s, t, x, r, x in list)
  {
    if x in list {
      SaveMeaning(s, x, r);
      BitmapAgrees(Save(s, x, r), t, x);
    } else {
      BitmapAgrees(s, t, x);
    }
  }

  /** Redrawing the subtree of `w` changes the screen and the dirty rectangles only; a window
      that is ready for it becomes coherent unless a stale pixel is copied. */
  lemma {:induction false} RedrawTheorem(t: State, root: Window, maxDepth: nat, w: Window, rs: seq<Rect>)
    requires Sound(t, root, maxDepth) && w in t.tree
    ensures var list := Pre(t.tree, maxDepth, {}, w);
            var s' := Fold(t, RedrawContents(rs), list);
            && Sound(s', root, maxDepth) && s'.tree == t.tree && s'.place == t.place && s'.shown == t.shown && s'.content == t.content
            && (forall x :: x in t.tree && Ready(t, rs, list, x) ==> (Coherent(s', x) <==> !Stale(t, rs, list, x)))
  {
    PreDistinct(t.tree, maxDepth, {}, w);
    PreAbove(t.tree, maxDepth, {}, w);
    forall x | x in Pre(t.tree, maxDepth, {}, w) ensures x in t.tree { AboveDepth(t.tree, w, x); }
    RedrawAny(t, root, maxDepth, rs, Pre(t.tree, maxDepth, {}, w));
  }

  /** The same for any list of windows. */
  lemma {:induction false} RedrawAny(t: State, root: Window, maxDepth: nat, rs: seq<Rect>, list: seq<Window>)
    requires Sound(t, root, maxDepth) && Distinct(list) && forall x :: x in list ==> x in t.tree
    ensures var s' := Fold(t, RedrawContents(rs), list);
            && Sound(s', root, maxDepth) && s'.tree == t.tree && s'.place == t.place && s'.shown == t.shown && s'.content == t.content
            && (forall x :: x in t.tree && Ready(t, rs, list, x) ==> (Coherent(s', x) <==> !Stale(t, rs, list, x)))
  {
    hide Fold, TreeOK, Shape;
    FoldFrame(t, RedrawContents(rs), list);
    ShownApart(t, maxDepth, root);
    forall x | x in t.tree && Ready(t, rs, list, x)
      ensures Coherent(Fold(t, RedrawContents(rs), list), x) <==> !Stale(t, rs, list, x)
    {
      assert ShownOK(t.tree, t.place, x, t.shown[x]);
      RedrawRestores(t, rs, list, x);
    }
  }
}
