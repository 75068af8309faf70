/** window_close (server/window.c:1133-1236): the state it leaves, and when the screen is
    right afterwards. */
module Closing {
  import opened Geometry
  import opened WindowTree
  import opened Orders
  import opened Visibility
  import opened VisibleRects
  import opened Changes
  import opened Steps
  import opened Visitors
  import opened Backing
  import opened Coherence
  import opened Phases
  import opened Opening

  // ----- The postorder traversal with window_close_one -----

  /** The traversal has the effect of one call of window_close_one on every window. */
  ghost function ClosedShown(s: State, top: Window, list: seq<Window>): (m: map<Window, Shown>)
    requires s.Domains()
    ensures m.Keys == s.shown.Keys
  {
    map x | x in s.shown :: if x in list then Close(s, x, top).shown[x] else s.shown[x]
  }

  ghost function ClosedStore(s: State, top: Window, list: seq<Window>): (m: map<Window, Store>)
    requires s.Domains()
    ensures m.Keys == s.store.Keys
  {
    map x | x in s.store :: if x in list then Close(s, x, top).store[x] else s.store[x]
  }

  lemma {:induction false} CloseMeaning(s: State, top: Window, x: Window)
    requires s.Domains() && x in s.tree
    ensures var s' := Close(s, x, top);
            if AllOpen(s.tree, s.place, x)
            then s'.shown[x] == Shown([], x != top || s.shown[x].hidden) && s'.store[x] == Save(s, x, s.place[x].pos).store[x]
            else s'.shown[x] == s.shown[x] && s'.store[x] == s.store[x]
    ensures Close(s, x, top).place[x] == if AllOpen(s.tree, s.place, x) && x == top then s.place[x].(isOpen := false) else s.place[x]
  {
    hide AllOpen;
  }

  /** Closing a window below the top depends on its own fields, the tree, the places and the
      screen only, and changes no place. */
  lemma {:induction false} CloseAgree(s: State, t: State, top: Window, x: Window)
    requires s.Domains() && t.Domains() && t.tree == s.tree && t.place == s.place && t.screen == s.screen
    requires x in s.tree && SameAt(s, t, x)
    ensures SameAt(Close(s, x, top), Close(t, x, top), x)
  {
    hide Close;
    SaveAgree(s, t, x, s.place[x].pos);
    CloseMeaning(s, top, x);
    CloseMeaning(t, top, x);
  }

  lemma {:induction false} CloseKeepsPlaces(s: State, top: Window, list: seq<Window>)
    requires s.Domains() && top !in list
    ensures Fold(s, CloseOne(top), list).place == s.place
    decreases |list|
  {
    if list != [] {
      var n := |list| - 1;
      CloseKeepsPlaces(s, top, list[..n]);
      assert list[n] in list && list[n] != top;
    }
  }

  lemma {:induction false} CloseApply(s: State, top: Window, w: Window)
    requires s.Domains() && w in s.tree
    ensures Apply(s, CloseOne(top), w) == Close(s, w, top)
  {
  }

  /** While the top has not been reached, the traversal has the effect of one call on every
      listed window. */
  lemma {:induction false} CloseBelow(s: State, top: Window, list: seq<Window>, x: Window)
    requires s.Domains() && Distinct(list) && top !in list && x in s.tree && x in list
    ensures SameAt(Close(s, x, top), Fold(s, CloseOne(top), list), x)
    decreases |list|
  {
    hide Close, Apply, Fold;
    var n := |list| - 1;
    var before, w, v := list[..n], list[n], CloseOne(top);
    assert list == before + [w];
    var t := Fold(s, v, before);
    FoldStep(s, v, before, w);
    FoldFrame(s, v, before);
    if w == x {
      CloseKeepsPlaces(s, top, before);
      FoldElsewhere(s, v, before, x);
      CloseAgree(s, t, top, x);
      CloseApply(t, top, x);
    } else {
      assert x in before;
      CloseBelow(s, top, before, x);
      ApplyElsewhere(t, v, w, x);
    }
  }

  /** The whole traversal of the subtree of `w`. */
  ghost function CloseUnmapped(s: State, w: Window, list: seq<Window>): (s': State)
    requires s.Domains() && w in s.tree
    ensures s'.Domains() && s'.tree == s.tree && s'.place == s.place[w := s.place[w].(isOpen := false)]
  {
    s.(place := s.place[w := s.place[w].(isOpen := false)], shown := ClosedShown(s, w, list), store := ClosedStore(s, w, list))
  }

  lemma {:induction false} CloseAtOther(s: State, w: Window, before: seq<Window>, t: State, x: Window)
    requires s.Domains() && t.Domains() && t.tree == s.tree && w in s.tree && x in s.tree && x != w
    requires if x in before then SameAt(Close(s, x, w), t, x) else SameAt(s, t, x)
    ensures SameAt(CloseUnmapped(s, w, before + [w]), t, x)
  {
    hide Close;
    if x in before { CloseMeaning(s, w, x); }
  }

  lemma {:induction false} CloseAtTop(s: State, w: Window, before: seq<Window>, t: State)
    requires s.Domains() && t.Domains() && t.tree == s.tree && t.place == s.place && t.screen == s.screen
    requires w in s.tree && SameAt(s, t, w) && AllOpen(s.tree, s.place, w)
    ensures SameAt(CloseUnmapped(s, w, before + [w]), Close(t, w, w), w)
  {
    hide Close;
    CloseMeaning(s, w, w);
    CloseAgree(s, t, w, w);
  }

  lemma {:induction false} CloseAt(s: State, w: Window, before: seq<Window>, x: Window)
    requires s.Domains() && Distinct(before) && w !in before && w in s.tree && AllOpen(s.tree, s.place, w) && x in s.tree
    ensures SameAt(CloseUnmapped(s, w, before + [w]), Apply(Fold(s, CloseOne(w), before), CloseOne(w), w), x)
  {
    hide Fold, Apply, Close, AllOpen, CloseUnmapped;
    var t := Fold(s, CloseOne(w), before);
    FoldFrame(s, CloseOne(w), before);
    CloseKeepsPlaces(s, w, before);
    if x == w {
      FoldElsewhere(s, CloseOne(w), before, w);
      CloseAtTop(s, w, before, t);
      CloseApply(t, w, w);
    } else {
      if x in before { CloseBelow(s, w, before, x); } else { FoldElsewhere(s, CloseOne(w), before, x); }
      CloseAtOther(s, w, before, t, x);
      ApplyElsewhere(t, CloseOne(w), w, x);
    }
  }

  lemma {:induction false} CloseEffect(s: State, root: Window, maxDepth: nat, w: Window)
    requires Usable(s, root, maxDepth, w) && AllOpen(s.tree, s.place, w)
    ensures var list := Post(s.tree, maxDepth, w); Fold(s, CloseOne(w), list) == CloseUnmapped(s, w, list)
  {
    hide TreeOK, Shape, Fold, Apply, ClosedShown, ClosedStore;
    var list := Post(s.tree, maxDepth, w);
    PostSplit(s.tree, maxDepth, w);
    PostDistinct(s.tree, maxDepth, w);
    var before := list[..|list| - 1];
    assert list == before + [w];
    DistinctSplit(before, w);
    FoldFrame(s, CloseOne(w), list);
    FoldStep(s, CloseOne(w), before, w);
    forall x | x in s.tree ensures SameAt(CloseUnmapped(s, w, list), Fold(s, CloseOne(w), list), x) {
      CloseAt(s, w, before, x);
    }
    SameStates(CloseUnmapped(s, w, list), Fold(s, CloseOne(w), list));
  }

  lemma {:induction false} SameStates(s: State, t: State)
    requires s.Domains() && t.Domains() && s.tree == t.tree && s.content == t.content && s.screen == t.screen
    requires forall x :: x in s.tree ==> SameAt(s, t, x)
    ensures s == t
  {
    assert s.place == t.place && s.shown == t.shown && s.store == t.store by {
      forall x | x in s.tree ensures s.place[x] == t.place[x] && s.shown[x] == t.shown[x] && s.store[x] == t.store[x] {
        assert SameAt(s, t, x);
      }
    }
  }

  lemma {:induction false} PostSplit(t: Tree, maxDepth: nat, w: Window)
    requires Shape(t, maxDepth) && w in t
    ensures var list := Post(t, maxDepth, w); list != [] && list[|list| - 1] == w
  {
  }

  lemma {:induction false} DistinctSplit<T>(a: seq<T>, x: T)
    requires Distinct(a + [x])
    ensures Distinct(a) && x !in a
  {
    var s := a + [x];
    assert s[|a|] == x;
    assert forall i :: 0 <= i < |a| ==> a[i] == s[i];
  }

  // ----- The rebuild -----

  /** The state of window_close just before it redraws. */
  ghost function ClosePrepared(s: State, root: Window, maxDepth: nat, w: Window): (s': State)
    requires Usable(s, root, maxDepth, w)
    ensures s'.Domains() && s'.tree == s.tree && s'.content == s.content && s'.screen == s.screen
    ensures s'.store == ClosedStore(s, w, Post(s.tree, maxDepth, w))
  {
    var c := CloseUnmapped(s, w, Post(s.tree, maxDepth, w));
    var rs := [s.place[w].pos];
    c.(shown := RebuiltShown(s.tree, c.place, c.shown, rs, RightAndParent(s.tree, maxDepth, Cut(c.place, rs), w)))
  }

  lemma {:induction false} CloseChain(s: State, root: Window, maxDepth: nat, w: Window)
    requires Usable(s, root, maxDepth, w)
    ensures var c, v := CloseUnmapped(s, w, Post(s.tree, maxDepth, w)), RebuildRecs([s.place[w].pos]);
            c.Domains() && c.tree == s.tree && c.place[w].pos == s.place[w].pos
            && Fold(c, v, RightAndParent(s.tree, maxDepth, Turns(c, v), w)) == ClosePrepared(s, root, maxDepth, w)
  {
    hide Fold, TreeOK, Shape, ClosedShown, ClosedStore, Cut, RightAndParent, Post;
    var c, rs := CloseUnmapped(s, w, Post(s.tree, maxDepth, w)), [s.place[w].pos];
    RightVisits(s.tree, maxDepth, Cut(c.place, rs), root, w);
    RebuildEffect(c, rs, RightAndParent(s.tree, maxDepth, Cut(c.place, rs), w));
  }

  lemma {:induction false} ClosedEmptied(s: State, w: Window, list: seq<Window>)
    requires s.Domains() && w in s.tree && AllOpen(s.tree, s.place, w) && forall x :: x in s.tree ==> (x in list <==> Above(s.tree, w, x))
    ensures Emptied(s.tree, s.place, w, s.shown, ClosedShown(s, w, list))
  {
    hide Close, Above, AllOpen;
    forall x | x in s.tree ensures ClosedShown(s, w, list)[x] == if Above(s.tree, w, x) && AllOpen(s.tree, s.place, x)
                                                                 then Shown([], x != w || s.shown[x].hidden) else s.shown[x] {
      CloseMeaning(s, w, x);
    }
  }

  lemma {:induction false} CloseSound(s: State, root: Window, maxDepth: nat, w: Window)
    requires Usable(s, root, maxDepth, w) && AllOpen(s.tree, s.place, w)
    ensures Sound(ClosePrepared(s, root, maxDepth, w), root, maxDepth)
    ensures ClosePrepared(s, root, maxDepth, w).place == s.place[w := s.place[w].(isOpen := false)]
  {
    hide TreeOK, Shape, Cut, RightAndParent, ClosedStore, ClosedShown, Post, AllOpen, Emptied;
    var t, rs, list := s.tree, [s.place[w].pos], Post(s.tree, maxDepth, w);
    var c := CloseUnmapped(s, w, list);
    var visited := RightAndParent(t, maxDepth, Cut(c.place, rs), w);
    var s2 := ClosePrepared(s, root, maxDepth, w);
    assert s.place[w].isOpen by { IsOpen(s.tree, s.place, w); }
    RightVisits(t, maxDepth, Cut(c.place, rs), root, w);
    PlacesMoved(t, s.place, c.place, 0, 0);
    forall x | x in t ensures x in list <==> Above(t, w, x) { PostMembers(t, maxDepth, w, x); }
    ClosedEmptied(s, w, list);
    forall v | v in t ensures ShownOK(t, s2.place, v, s2.shown[v]) {
      CloseRestores(t, maxDepth, s.place, c.place, w, visited, s.shown, c.shown, s2.shown, v);
    }
  }

  lemma {:induction false} IsOpen(t: Tree, pl: Places, w: Window)
    requires AllOpen(t, pl, w)
    ensures w in t && w in pl && pl[w].isOpen
  {
  }

  // ----- The redraw -----

  /** The parent is shown as a whole, the screen is ahead of its bitmap, and where `w` overlaps
      it (on its border) the two differ. */
  ghost predicate StaleBorder(s: State, w: Window) {
    s.Domains() && w in s.tree && s.tree[w].parent != null && s.tree[w].parent in s.tree &&
    var up := s.tree[w].parent;
    s.store[up].isDirty && exists p :: s.place[up].pos.Has(p) && s.place[w].pos.Has(p) && BitmapAt(s, up, p) != s.screen(p)
  }

  /** Below a right sibling of an open window, nothing that the window covers is visible. */
  lemma {:induction false} CoveredInvisible(t: Tree, maxDepth: nat, root: Window, pl: Places, w: Window, cut: set<Window>, v: Window, p: Pixel)
    requires TreeOK(t, root, maxDepth) && PlacesOK(t, pl) && w in t && w != root && pl[w].isOpen && pl[w].pos.Has(p)
    requires t[w].parent != null && (t[w].next != null ==> t[w].next in t)
    requires v in RightAndParent(t, maxDepth, cut, w) && v != t[w].parent
    ensures v in t && !Vis(t, pl, v, p)
  {
    RightVisits(t, maxDepth, cut, root, w);
    SiblingLinks(t, maxDepth, root, w);
    RightLevel(t, maxDepth, w);
    ListPreVisits(t, maxDepth, cut, root, t[w].next);
    assert RightOf(t, w) == [t[w].next] + RightOf(t, t[w].next);
    var a :| a in RightOf(t, w) && Above(t, a, v);
    RightMembers(t, maxDepth, w, a);
    if Vis(t, pl, v, p) { InAncestor(t, pl, a, v, p); }
  }

  /** window_close_one leaves the bitmap of every window whole. */
  lemma {:induction false} ClosedWhole(s: State, t: State, top: Window, v: Window)
    requires s.Domains() && t.Domains() && PlacesOK(s.tree, s.place) && v in s.tree && t.tree == s.tree && t.content == s.content
    requires Coherent(s, v) && ShownOK(s.tree, s.place, v, s.shown[v])
    requires t.store[v] == Close(s, v, top).store[v] && t.place[v].pos == s.place[v].pos
    ensures !t.store[v].isDirty && BitmapWhole(t, v)
  {
    hide Close, Save;
    CloseMeaning(s, top, v);
    if AllOpen(s.tree, s.place, v) {
      ShownFully(s, v);
      SaveMeaning(s, v, s.place[v].pos);
      assert PlaceOK(s.place[v]);
      BitmapMoved(Save(s, v, s.place[v].pos), t, v);
    } else {
      NothingShown(s.tree, s.place, v, s.shown[v]);
      BitmapMoved(s, t, v);
    }
  }

  lemma {:induction false} NothingReady(t: State, rs: seq<Rect>, list: seq<Window>, v: Window)
    requires t.Domains() && v in t.tree && PlacesOK(t.tree, t.place) && ShownOK(t.tree, t.place, v, t.shown[v])
    requires !AllOpen(t.tree, t.place, v) && !t.store[v].isDirty && BitmapWhole(t, v)
    ensures Ready(t, rs, list, v) && !Stale(t, rs, list, v)
  {
    NothingShown(t.tree, t.place, v, t.shown[v]);
  }

  lemma {:induction false} CloseInside(s: State, root: Window, maxDepth: nat, w: Window, v: Window)
    requires Usable(s, root, maxDepth, w) && AllOpen(s.tree, s.place, w) && v in s.tree && Coherent(s, v) && Above(s.tree, w, v)
    ensures var t, rs, list := ClosePrepared(s, root, maxDepth, w), [s.place[w].pos], RightAndParent(s.tree, maxDepth, {}, w);
            Ready(t, rs, list, v) && !Stale(t, rs, list, v)
  {
    hide TreeOK, Shape, Post, RightAndParent, ClosePrepared, Close, Save, BitmapWhole, Ready, Stale, ShownOK, Coherent;
    var t := ClosePrepared(s, root, maxDepth, w);
    CloseSound(s, root, maxDepth, w);
    assert !AllOpen(t.tree, t.place, w);
    ClosedBelow(t.tree, t.place, w, v);
    PostMembers(s.tree, maxDepth, w, v);
    assert ShownOK(t.tree, t.place, v, t.shown[v]) && ShownOK(s.tree, s.place, v, s.shown[v]);
    ClosedWhole(s, t, w, v);
    NothingReady(t, [s.place[w].pos], RightAndParent(s.tree, maxDepth, {}, w), v);
  }

  lemma {:induction false} CloseOutside(s: State, root: Window, maxDepth: nat, w: Window, v: Window)
    requires Usable(s, root, maxDepth, w) && AllOpen(s.tree, s.place, w) && v in s.tree && Coherent(s, v) && !Above(s.tree, w, v)
    ensures var t, rs, list := ClosePrepared(s, root, maxDepth, w), [s.place[w].pos], RightAndParent(s.tree, maxDepth, {}, w);
            t.Domains() && Ready(t, rs, list, v) && (v != s.tree[w].parent ==> !Stale(t, rs, list, v))
            && t.store[v] == s.store[v] && t.place[v] == s.place[v]
            && (t.store[v].isDirty ==> !t.shown[v].hidden && t.place[v].isOpen)
  {
    hide TreeOK, Shape, Post, RightAndParent;
    var t, r, list := ClosePrepared(s, root, maxDepth, w), s.place[w].pos, RightAndParent(s.tree, maxDepth, {}, w);
    CloseSound(s, root, maxDepth, w);
    AboveSelf(s.tree, w);
    PlaceChangeAffects(s.tree, maxDepth, s.place, t.place, w);
    PostMembers(s.tree, maxDepth, w, v);
    BitmapAgrees(s, t, v);
    forall p ensures !Uncovers(t.tree, t.place, s.tree, s.place, w, v, p) {
      ClosedUncoversNothing(s.tree, t.place, s.place, w, v, p);
    }
    forall p | Uncovers(s.tree, s.place, t.tree, t.place, w, v, p) ensures v in list && Covers([r], p) {
      UncoveredVisited(s.tree, maxDepth, root, s.place, t.place, w, v, p);
      assert r in [r];
    }
    OutsideReady(s, t, w, root, maxDepth, r, false, [r], list, v);
    if v != s.tree[w].parent {
      forall p | v in list && Covers([r], p) ensures !Vis(s.tree, s.place, v, p) {
        CoveredInvisible(s.tree, maxDepth, root, s.place, w, {}, v, p);
      }
      OutsideNotStale(s, t, w, root, maxDepth, r, false, [r], list, v);
    }
  }

  /** Redrawing the parent within `r` copies a stale pixel exactly when its screen part and its
      bitmap differ there. */
  lemma {:induction false} StaleParent(s: State, t: State, up: Window, r: Rect, list: seq<Window>)
    requires s.Domains() && t.Domains() && up in s.tree && up in t.tree && up in list
    requires ShownOK(s.tree, s.place, up, s.shown[up]) && ShownOK(t.tree, t.place, up, t.shown[up])
    requires Coherent(s, up) && s.store[up].isDirty && t.place[up].isOpen && !t.shown[up].hidden
    requires t.store[up] == s.store[up] && t.place[up] == s.place[up] && t.content == s.content
    ensures Stale(t, [r], list, up) <==> exists p :: s.place[up].pos.Has(p) && r.Has(p) && BitmapAt(s, up, p) != s.screen(p)
  {
    ShownFully(s, up);
    ShownFully(t, up);
    forall p | s.place[up].pos.Has(p)
      ensures Covers(t.shown[up].recs, p) && s.screen(p) == ContentAt(t, up, p) && BitmapAt(t, up, p) == BitmapAt(s, up, p)
    {
      assert Covers(s.shown[up].recs, p) && !DirtyOnScreen(s, up).Has(p);
    }
    assert r in [r];
  }

  /** Redrawing the parent goes wrong exactly when its border is stale under `w`. */
  lemma {:induction false} CloseParent(s: State, root: Window, maxDepth: nat, w: Window)
    requires Usable(s, root, maxDepth, w) && AllOpen(s.tree, s.place, w) && Coherent(s, s.tree[w].parent)
    ensures var t, rs, list := ClosePrepared(s, root, maxDepth, w), [s.place[w].pos], RightAndParent(s.tree, maxDepth, {}, w);
            t.Domains() && (Stale(t, rs, list, s.tree[w].parent) <==> StaleBorder(s, w))
  {
    hide TreeOK, Shape, Post, RightAndParent, ClosePrepared, Close, Save, PlacesOK, AllOpen, Above, Vis, ClosedStore;
    var t, r, list, up := ClosePrepared(s, root, maxDepth, w), s.place[w].pos, RightAndParent(s.tree, maxDepth, {}, w), s.tree[w].parent;
    CloseSound(s, root, maxDepth, w);
    RightVisits(s.tree, maxDepth, {}, root, w);
    CloseOutside(s, root, maxDepth, w, up);
    assert ShownOK(t.tree, t.place, up, t.shown[up]) && ShownOK(s.tree, s.place, up, s.shown[up]);
    if s.store[up].isDirty { StaleParent(s, t, up, r, list); }
  }

  lemma {:induction false} CloseOthers(s: State, root: Window, maxDepth: nat, w: Window, v: Window)
    requires Usable(s, root, maxDepth, w) && AllOpen(s.tree, s.place, w) && v in s.tree && Coherent(s, v)
    ensures var t, rs, list := ClosePrepared(s, root, maxDepth, w), [s.place[w].pos], RightAndParent(s.tree, maxDepth, {}, w);
            Ready(t, rs, list, v) && (v != s.tree[w].parent ==> !Stale(t, rs, list, v))
  {
    hide *;
    if Above(s.tree, w, v) { CloseInside(s, root, maxDepth, w, v); } else { CloseOutside(s, root, maxDepth, w, v); }
  }

  /** The state that window_close leaves. */
  ghost function CloseResult(s: State, root: Window, maxDepth: nat, w: Window): State
    requires Usable(s, root, maxDepth, w)
  {
    Fold(ClosePrepared(s, root, maxDepth, w), RedrawContents([s.place[w].pos]), RightAndParent(s.tree, maxDepth, {}, w))
  }

  lemma {:induction false} CloseFrame(s: State, root: Window, maxDepth: nat, w: Window)
    requires Usable(s, root, maxDepth, w)
    ensures CloseResult(s, root, maxDepth, w).Domains() && CloseResult(s, root, maxDepth, w).tree == s.tree
  {
    hide Fold, ClosePrepared;
    CloseIs(s, root, maxDepth, w);
  }

  lemma {:induction false} CloseIs(s: State, root: Window, maxDepth: nat, w: Window)
    requires Usable(s, root, maxDepth, w)
    ensures CloseResult(s, root, maxDepth, w) ==
            Fold(ClosePrepared(s, root, maxDepth, w), RedrawContents([s.place[w].pos]), RightAndParent(s.tree, maxDepth, {}, w))
  {
  }

  /** window_close keeps everything in order.  It keeps the backing store of all windows
      coherent exactly when the parent's border is not stale. */
  lemma {:induction false} CloseTheorem(s: State, root: Window, maxDepth: nat, w: Window)
    requires Usable(s, root, maxDepth, w) && AllOpen(s.tree, s.place, w)
    ensures var s' := CloseResult(s, root, maxDepth, w);
            && Sound(s', root, maxDepth) && s'.tree == s.tree && s'.content == s.content
            && s'.place == s.place[w := s.place[w].(isOpen := false)]
            && (AllCoherent(s) ==> (AllCoherent(s') <==> !StaleBorder(s, w)))
            && (AllCoherent(s) ==> (Coherent(s', s.tree[w].parent) <==> !StaleBorder(s, w)))
            && (AllCoherent(s) ==> forall v :: v in s.tree && v != s.tree[w].parent ==> Coherent(s', v))
  {
    hide *;
    UsableTree(s, root, maxDepth, w);
    var t, rs, list, up := ClosePrepared(s, root, maxDepth, w), [s.place[w].pos], RightAndParent(s.tree, maxDepth, {}, w), s.tree[w].parent;
    CloseSound(s, root, maxDepth, w);
    RightVisits(s.tree, maxDepth, {}, root, w);
    RedrawAny(t, root, maxDepth, rs, list);
    CloseIs(s, root, maxDepth, w);
    var s' := CloseResult(s, root, maxDepth, w);
    if AllCoherent(s) {
      forall v | v in s.tree && v != up ensures Coherent(s', v) {
        CoherentAt(s, v);
        CloseOthers(s, root, maxDepth, w, v);
      }
      CoherentAt(s, up);
      CloseOthers(s, root, maxDepth, w, up);
      CloseParent(s, root, maxDepth, w);
      CoherentBut(s', up);
    }
  }

  lemma {:induction false} CoherentBut(s: State, u: Window)
    requires s.Domains() && u in s.tree && forall v :: v in s.tree && v != u ==> Coherent(s, v)
    ensures AllCoherent(s) <==> Coherent(s, u)
  {
    if AllCoherent(s) { CoherentAt(s, u); }
  }
}
