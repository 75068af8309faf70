/** window_restack (server/window.c:1596-1733): the state it leaves when the window is open. */
module Reordering {
  import opened Geometry
  import opened WindowTree
  import opened Orders
  import opened Visibility
  import opened VisibleRects
  import opened Changes
  import opened Steps
  import opened Linking
  import opened Restacking
  import opened Visitors
  import opened Backing
  import opened Coherence
  import opened Phases
  import opened Opening
  import opened Closing
  import opened Moving

  /** The siblings of a window that is restacked: those that stay above and below it, and
      those that it passes, topmost first, on its way up or down. */
  datatype Passage = Passage(above: seq<Window>, passed: seq<Window>, below: seq<Window>, up: bool) {
    ghost function Old(w: Window): seq<Window> {
      if up then above + passed + [w] + below else above + [w] + passed + below
    }

    ghost function New(w: Window): seq<Window> {
      if up then above + [w] + passed + below else above + passed + [w] + below
    }

    /** The passed siblings as window_restack visits them: nearest first. */
    ghost function Order(): seq<Window> {
      if up then Reversed(passed) else passed
    }
  }

  ghost function Reversed(s: seq<Window>): (r: seq<Window>)
    ensures |r| == |s| && forall i :: 0 <= i < |s| ==> r[i] == s[|s| - 1 - i]
  {
    if s == [] then [] else [s[|s| - 1]] + Reversed(s[..|s| - 1])
  }

  lemma {:induction false} OrderMember(d: Passage, b: Window)
    ensures b in d.Order() <==> b in d.passed
  {
    OrderMembers(d);
  }

  lemma {:induction false} OrderMembers(d: Passage)
    ensures forall b :: b in d.Order() <==> b in d.passed
    ensures Distinct(d.passed) ==> Distinct(d.Order())
  {
    if d.up {
      var r, s := d.Order(), d.passed;
      forall b | b in s ensures b in r {
        var i :| 0 <= i < |s| && s[i] == b;
        assert r[|s| - 1 - i] == b;
      }
    }
  }

  /** The siblings of `w` are as the passage says. */
  ghost predicate Passes(s: State, root: Window, maxDepth: nat, w: Window, d: Passage) {
    Usable(s, root, maxDepth, w) && s.tree[s.tree[w].parent].kids == d.Old(w)
  }

  /** wtree_remove and wtree_add_before or wtree_add_after. */
  ghost function Restacked(s: State, w: Window, d: Passage): (s': State)
    requires s.Domains() && w in s.tree && s.tree[w].parent != null
    ensures s'.Domains() && s' == s.(tree := s'.tree) && s'.tree.Keys == s.tree.Keys
    ensures s'.tree[w].parent == s.tree[w].parent && s'.tree[w].depth == s.tree[w].depth
  {
    s.(tree := Relinked(s.tree, s.tree[w].parent, d.New(w)))
  }

  /** What the passage means for the tree. */
  lemma {:induction false} PassedTree(s: State, root: Window, maxDepth: nat, w: Window, d: Passage)
    requires Passes(s, root, maxDepth, w, d)
    ensures Usable(s, root, maxDepth, w) && s.Domains() && w in s.tree && s.tree[w].parent != null && s.tree[w].parent in s.tree
    ensures Exchanged(s.tree[s.tree[w].parent].kids, d.New(w), d.above, w, d.passed, d.below)
    ensures var t := Restacked(s, w, d).tree;
            && TreeOK(t, root, maxDepth) && Level(t, maxDepth, w, d.Order())
            && OnlyDiffersAt(s.tree, s.place, t, s.place, w) && OnlyAffects(s.tree, s.place, t, s.place, w, d.Order())
            && (forall x :: x in t ==> (Above(t, w, x) <==> Above(s.tree, w, x)))
    ensures Distinct(d.Order()) && w !in d.Order()
    ensures forall b :: b in d.Order() ==> b in s.tree && !Above(s.tree, w, b)
  {
    hide *;
    PassesKids(s, root, maxDepth, w, d);
    UsableTree(s, root, maxDepth, w);
    PassedExchanged(w, d);
    ExchangeAffects(s.tree, maxDepth, root, s.place, d.New(w), d.above, w, d.passed, d.below);
    OrderMembers(d);
    IsRelinked(s, w, d);
    var t := Restacked(s, w, d).tree;
    DiffersAbove(s.tree, s.place, t, s.place, w);
    forall b | b in d.Order() ensures b in s.tree && s.tree[b].depth == s.tree[w].depth { OrderMember(d, b); }
    MakeLevel(s.tree, t, root, maxDepth, w, d.Order());
    AffectsSame(s.tree, s.place, t, s.place, w, d.passed, d.Order());
    AboveSelf(s.tree, w);
  }

  lemma {:induction false} PassesKids(s: State, root: Window, maxDepth: nat, w: Window, d: Passage)
    requires Passes(s, root, maxDepth, w, d)
    ensures Usable(s, root, maxDepth, w) && s.tree[s.tree[w].parent].kids == d.Old(w)
  {
  }

  lemma {:induction false} DiffersAbove(t0: Tree, pl0: Places, t1: Tree, pl1: Places, w: Window)
    requires OnlyDiffersAt(t0, pl0, t1, pl1, w)
    ensures t1.Keys == t0.Keys && forall x :: x in t1 ==> (Above(t1, w, x) <==> Above(t0, w, x))
    ensures forall x :: x in t0 ==> t1[x].depth == t0[x].depth
  {
    forall x | x in t1 ensures Above(t1, w, x) <==> Above(t0, w, x) { AboveSame(t0, t1, w, x); }
  }

  lemma {:induction false} MakeLevel(t0: Tree, t: Tree, root: Window, maxDepth: nat, w: Window, order: seq<Window>)
    requires TreeOK(t, root, maxDepth) && t.Keys == t0.Keys && w in t0 && t[w].depth == t0[w].depth
    requires forall b :: b in order ==> b in t0 && t0[b].depth == t0[w].depth
    requires forall x :: x in t0 ==> t[x].depth == t0[x].depth
    ensures Level(t, maxDepth, w, order)
  {
  }

  lemma {:induction false} AffectsSame(t0: Tree, pl0: Places, t1: Tree, pl1: Places, w: Window, a: seq<Window>, b: seq<Window>)
    requires t0.Keys == t1.Keys && w in pl0 && w in pl1 && OnlyAffects(t0, pl0, t1, pl1, w, a) && forall x :: x in b <==> x in a
    ensures OnlyAffects(t0, pl0, t1, pl1, w, b)
  {
  }

  lemma {:induction false} PassedExchanged(w: Window, d: Passage)
    ensures Exchanged(d.Old(w), d.New(w), d.above, w, d.passed, d.below)
  {
  }

  /** A passed sibling is below `w` before a move down, and above it before a move up. */
  lemma {:induction false} PassedSide(s: State, root: Window, maxDepth: nat, w: Window, d: Passage, b: Window)
    requires Passes(s, root, maxDepth, w, d) && b in d.Order()
    ensures b in s.tree && (w in LeftOf(s.tree, b) <==> !d.up)
  {
    var parent := s.tree[w].parent;
    PassedTree(s, root, maxDepth, w, d);
    assert KidsOK(s.tree, parent, maxDepth);
    OrderMembers(d);
    KidHasParent(s.tree, maxDepth, parent, b);
    PassedBefore(w, d, b);
  }

  lemma {:induction false} PassedBefore(w: Window, d: Passage, b: Window)
    requires Distinct(d.Old(w)) && b in d.passed
    ensures w in Before(d.Old(w), b) <==> !d.up
  {
    var kids := d.Old(w);
    var i :| 0 <= i < |d.passed| && d.passed[i] == b;
    var n := |d.above|;
    if d.up {
      assert kids[n + i] == b && kids[n + |d.passed|] == w;
      SplitAt(kids, n + i);
    } else {
      assert kids[n + 1 + i] == b && kids[n] == w;
      SplitAt(kids, n + 1 + i);
      assert kids[..n + 1 + i][n] == w;
    }
  }

  // ----- The windows that are visited -----

  /** The passed siblings with their subtrees */
  ghost function BlockVisits(t: Tree, maxDepth: nat, cut: set<Window>, w: Window, order: seq<Window>): seq<Window>
    requires Shape(t, maxDepth) && w in t && OnLevel(t, order, t[w].depth)
  {
    PreSeq(t, maxDepth, cut, order, t[w].depth)
  }

  /** ... and the subtree of the window itself. */
  ghost function AllVisits(t: Tree, maxDepth: nat, cut: set<Window>, w: Window, order: seq<Window>): seq<Window>
    requires Shape(t, maxDepth) && w in t && OnLevel(t, order, t[w].depth)
  {
    BlockVisits(t, maxDepth, cut, w, order) + Pre(t, maxDepth, cut, w)
  }

  lemma {:induction false} BlockVisited(t: Tree, maxDepth: nat, cut: set<Window>, w: Window, order: seq<Window>)
    requires Shape(t, maxDepth) && w in t && OnLevel(t, order, t[w].depth) && Distinct(order) && w !in order
    ensures var list := BlockVisits(t, maxDepth, cut, w, order);
            && Distinct(list)
            && (forall x :: x in list ==> x in t && !Above(t, w, x) && exists b :: b in order && Above(t, b, x))
            && (forall b :: b in order ==> forall x :: x in Pre(t, maxDepth, cut, b) ==> x in list)
  {
    var d, list := t[w].depth, BlockVisits(t, maxDepth, cut, w, order);
    PreSeqDistinct(t, maxDepth, cut, order, d);
    PreSeqAbove(t, maxDepth, cut, order, d);
    forall x | x in list ensures x in t && !Above(t, w, x) && exists b :: b in order && Above(t, b, x) {
      var b :| b in order && Above(t, b, x);
      AboveDepth(t, b, x);
      if Above(t, w, x) { AboveUnique(t, b, w, x); }
    }
    forall b | b in order ensures forall x :: x in Pre(t, maxDepth, cut, b) ==> x in list {
      PreInSeq(t, maxDepth, cut, order, d, b);
    }
  }

  lemma {:induction false} AllVisited(t: Tree, maxDepth: nat, cut: set<Window>, w: Window, order: seq<Window>)
    requires Shape(t, maxDepth) && w in t && OnLevel(t, order, t[w].depth) && Distinct(order) && w !in order
    ensures var list := AllVisits(t, maxDepth, cut, w, order);
            && Distinct(list) && (forall x :: x in list ==> x in t)
            && (forall x :: x in Pre(t, maxDepth, cut, w) ==> x in list)
            && (forall b :: b in order ==> forall x :: x in Pre(t, maxDepth, cut, b) ==> x in list)
  {
    BlockVisited(t, maxDepth, cut, w, order);
    PreDistinct(t, maxDepth, cut, w);
    PreAbove(t, maxDepth, cut, w);
    forall x | x in Pre(t, maxDepth, cut, w) ensures x in t { AboveDepth(t, w, x); }
    ConcatDistinct(BlockVisits(t, maxDepth, cut, w, order), Pre(t, maxDepth, cut, w));
  }

  // ----- The states that window_restack passes through -----

  /** The windows that are saved: going up, the passed siblings and the window, else the
      window only. */
  ghost function SaveVisits(t: Tree, maxDepth: nat, w: Window, order: seq<Window>, up: bool): seq<Window>
    requires Shape(t, maxDepth) && w in t && OnLevel(t, order, t[w].depth)
  {
    if up then AllVisits(t, maxDepth, {}, w, order) else Pre(t, maxDepth, {}, w)
  }

  /** The windows that are redrawn: going up, the window itself, else the passed siblings. */
  ghost function RedrawVisits(t: Tree, maxDepth: nat, w: Window, order: seq<Window>, up: bool): seq<Window>
    requires Shape(t, maxDepth) && w in t && OnLevel(t, order, t[w].depth)
  {
    if up then Pre(t, maxDepth, {}, w) else BlockVisits(t, maxDepth, {}, w, order)
  }

  ghost predicate Level(t: Tree, maxDepth: nat, w: Window, order: seq<Window>) {
    Shape(t, maxDepth) && w in t && OnLevel(t, order, t[w].depth)
  }

  ghost function RestackSaved(s1: State, maxDepth: nat, w: Window, order: seq<Window>, up: bool): (s': State)
    requires s1.Domains() && Level(s1.tree, maxDepth, w, order)
    ensures s'.Domains() && s' == s1.(store := s'.store)
  {
    s1.(store := SavedStore(s1, s1.place[w].pos, SaveVisits(s1.tree, maxDepth, w, order, up)))
  }

  ghost function RestackPrepared(s1: State, maxDepth: nat, w: Window, order: seq<Window>, up: bool): (s': State)
    requires s1.Domains() && Level(s1.tree, maxDepth, w, order)
    ensures s'.Domains() && s' == RestackSaved(s1, maxDepth, w, order, up).(shown := s'.shown)
  {
    var rs := [s1.place[w].pos];
    RestackSaved(s1, maxDepth, w, order, up).(
      shown := RebuiltShown(s1.tree, s1.place, s1.shown, rs, AllVisits(s1.tree, maxDepth, Cut(s1.place, rs), w, order)))
  }

  ghost function RestackResult(s1: State, maxDepth: nat, w: Window, order: seq<Window>, up: bool): (s': State)
    requires s1.Domains() && Level(s1.tree, maxDepth, w, order)
    ensures s'.Domains() && s'.tree == s1.tree && s'.content == s1.content
  {
    Fold(RestackPrepared(s1, maxDepth, w, order, up), RedrawContents([s1.place[w].pos]), RedrawVisits(s1.tree, maxDepth, w, order, up))
  }

  // ----- The traversals reach these states -----

  lemma {:induction false} SaveVisited(t: Tree, maxDepth: nat, w: Window, order: seq<Window>, up: bool)
    requires Level(t, maxDepth, w, order) && Distinct(order) && w !in order
    ensures Distinct(SaveVisits(t, maxDepth, w, order, up))
    ensures Distinct(RedrawVisits(t, maxDepth, w, order, up)) && forall x :: x in RedrawVisits(t, maxDepth, w, order, up) ==> x in t
  {
    AllVisited(t, maxDepth, {}, w, order);
    BlockVisited(t, maxDepth, {}, w, order);
    PreIsBelow(t, maxDepth, w);
  }

  lemma {:induction false} RestackSaves(s1: State, maxDepth: nat, w: Window, order: seq<Window>, up: bool)
    requires s1.Domains() && Level(s1.tree, maxDepth, w, order) && Distinct(order) && w !in order
    ensures Fold(s1, SaveContents(s1.place[w].pos), SaveVisits(s1.tree, maxDepth, w, order, up)) == RestackSaved(s1, maxDepth, w, order, up)
  {
    hide Fold, SavedStore, SaveVisits, RedrawVisits, Shape;
    SaveVisited(s1.tree, maxDepth, w, order, up);
    SaveEffect(s1, s1.place[w].pos, SaveVisits(s1.tree, maxDepth, w, order, up));
  }

  lemma {:induction false} RestackRebuilds(s1: State, maxDepth: nat, w: Window, order: seq<Window>, up: bool)
    requires s1.Domains() && Level(s1.tree, maxDepth, w, order) && Distinct(order) && w !in order
    ensures var t, v := RestackSaved(s1, maxDepth, w, order, up), RebuildRecs([s1.place[w].pos]);
            Fold(t, v, AllVisits(s1.tree, maxDepth, Turns(t, v), w, order)) == RestackPrepared(s1, maxDepth, w, order, up)
  {
    hide Fold, RebuiltShown, Rebuilt, Cut, AllVisits, RestackSaved, Shape;
    var t, rs := RestackSaved(s1, maxDepth, w, order, up), [s1.place[w].pos];
    AllVisited(s1.tree, maxDepth, Cut(t.place, rs), w, order);
    RebuildEffect(t, rs, AllVisits(s1.tree, maxDepth, Cut(t.place, rs), w, order));
  }

  // ----- After the rebuild the rectangles are in order -----

  lemma {:induction false} RestackSound(s: State, root: Window, maxDepth: nat, w: Window, d: Passage)
    requires Passes(s, root, maxDepth, w, d)
    ensures var s1 := Restacked(s, w, d);
            Level(s1.tree, maxDepth, w, d.Order()) && Sound(RestackPrepared(s1, maxDepth, w, d.Order(), d.up), root, maxDepth)
  {
    hide *;
    PassedTree(s, root, maxDepth, w, d);
    UsableTree(s, root, maxDepth, w);
    var s1 := Restacked(s, w, d);
    var t2 := RestackPrepared(s1, maxDepth, w, d.Order(), d.up);
    RestackShown(s, root, maxDepth, w, d, w);
    forall v | v in s.tree ensures v in t2.tree && v in t2.shown && v in t2.place && ShownOK(t2.tree, t2.place, v, t2.shown[v]) {
      RestackShown(s, root, maxDepth, w, d, v);
    }
    MakeSound(t2, root, maxDepth);
  }

  lemma {:induction false} MakeSound(s: State, root: Window, maxDepth: nat)
    requires s.Domains() && TreeOK(s.tree, root, maxDepth) && PlacesOK(s.tree, s.place)
    requires forall v :: v in s.tree ==> ShownOK(s.tree, s.place, v, s.shown[v])
    ensures Sound(s, root, maxDepth)
  {
    hide ShownOK, PlacesOK;
  }

  lemma {:induction false} RestackShown(s: State, root: Window, maxDepth: nat, w: Window, d: Passage, v: Window)
    requires Passes(s, root, maxDepth, w, d) && v in s.tree
    ensures var s1 := Restacked(s, w, d);
            && s1.Domains() && Level(s1.tree, maxDepth, w, d.Order())
            && var t2 := RestackPrepared(s1, maxDepth, w, d.Order(), d.up);
            && t2.Domains() && t2.tree == s1.tree && t2.tree.Keys == s.tree.Keys && t2.place == s.place && PlacesOK(t2.tree, t2.place)
            && v in t2.tree && v in t2.shown && v in t2.place
            && ShownOK(t2.tree, t2.place, v, t2.shown[v])
  {
    hide Usable, TreeOK, Shape, PlacesOK, Distinct, Above, Cut, AllVisits, Rebuilt, RebuiltShown, RestackSaved, Exchanged, Restacked, ShownOK;
    PassedTree(s, root, maxDepth, w, d);
    UsableTree(s, root, maxDepth, w);
    OrderMembers(d);
    var s1, rs := Restacked(s, w, d), [s.place[w].pos];
    var t, t2 := s1.tree, RestackPrepared(s1, maxDepth, w, d.Order(), d.up);
    var visited := AllVisits(t, maxDepth, Cut(s.place, rs), w, d.Order());
    AllVisited(t, maxDepth, Cut(s.place, rs), w, d.Order());
    RebuildEffect(s1, rs, visited);
    IsRelinked(s, w, d);
    SamePlaces(s.tree, t, s.place);
    RestackRestores(s.tree, maxDepth, root, s.place, d.New(w), d.above, w, d.passed, d.below, visited, s.shown, t2.shown, v);
  }

  lemma {:induction false} SamePlaces(t0: Tree, t1: Tree, pl: Places)
    requires t0.Keys == t1.Keys && PlacesOK(t0, pl)
    ensures PlacesOK(t1, pl)
  {
  }

  lemma {:induction false} IsRelinked(s: State, w: Window, d: Passage)
    requires s.Domains() && w in s.tree && s.tree[w].parent != null
    ensures Restacked(s, w, d).tree == Relinked(s.tree, s.tree[w].parent, d.New(w))
  {
  }

  // ----- The backing store -----

  /** On the way down, the subtree of the window can only lose visible pixels. */
  lemma {:induction false} DownShrinks(t: Tree, maxDepth: nat, pl: Places, w: Window, d: Passage, x: Window, p: Pixel)
    requires Shape(t, maxDepth) && w in t && x in t && HasParent(t, w) && ParentOK(t, w) && t[t[w].parent].kids == d.Old(w) && !d.up
    requires Above(t, w, x)
    ensures Vis(Relinked(t, t[w].parent, d.New(w)), pl, x, p) ==> Vis(t, pl, x, p)
  {
    hide Shape, ParentOK, LeftOf, Reach, AllOpen;
    ReachShrinks(t, maxDepth, pl, w, d, x, p);
    if x == t[w].parent { AboveDepth(t, w, x); }
  }

  /** Ancestors and descendants of `w` have at least the same siblings on top of them. */
  lemma {:induction false} LeftGrows(t: Tree, maxDepth: nat, w: Window, d: Passage, x: Window)
    requires Shape(t, maxDepth) && w in t && x in t && HasParent(t, w) && ParentOK(t, w) && t[t[w].parent].kids == d.Old(w) && !d.up
    requires Above(t, w, x) || Above(t, x, w)
    ensures var t1 := Relinked(t, t[w].parent, d.New(w));
            (HasParent(t1, x) <==> HasParent(t, x)) && forall u :: u in LeftOf(t, x) ==> u in LeftOf(t1, x)
  {
    var parent := t[w].parent;
    var t1 := Relinked(t, parent, d.New(w));
    assert KidsOK(t, parent, maxDepth);
    if x == w {
      LeftOfGrows(w, d);
    } else if HasParent(t, x) && t[x].parent == parent {
      assert ParentOK(t, x);
      if Above(t, w, x) { AboveDepth(t, w, x); } else { AboveDepth(t, x, w); }
    }
  }

  lemma {:induction false} LeftOfGrows(w: Window, d: Passage)
    requires Distinct(d.Old(w)) && !d.up
    ensures forall u :: u in Before(d.Old(w), w) ==> u in Before(d.New(w), w)
  {
    ExchangedDistinct(d.above, w, d.passed, d.below);
    assert d.Old(w) == d.above + [w] + (d.passed + d.below);
    assert d.New(w) == (d.above + d.passed) + [w] + d.below;
    SplitOf(d.above, w, d.passed + d.below);
    SplitOf(d.above + d.passed, w, d.below);
  }

  lemma {:induction false} ReachShrinks(t: Tree, maxDepth: nat, pl: Places, w: Window, d: Passage, x: Window, p: Pixel)
    requires Shape(t, maxDepth) && w in t && x in t && HasParent(t, w) && ParentOK(t, w) && t[t[w].parent].kids == d.Old(w) && !d.up
    requires Above(t, w, x) || Above(t, x, w)
    ensures var t1 := Relinked(t, t[w].parent, d.New(w));
            (AllOpen(t1, pl, x) <==> AllOpen(t, pl, x)) && (Reach(t1, pl, x, p) ==> Reach(t, pl, x, p))
    decreases t[x].depth
  {
    hide Shape, ParentOK, LeftOf, Relinked;
    var t1 := Relinked(t, t[w].parent, d.New(w));
    LeftGrows(t, maxDepth, w, d, x);
    RelinkedParent(t, t[w].parent, d.New(w), x);
    if HasParent(t, x) {
      var up := t[x].parent;
      if Above(t, x, w) { assert Above(t, up, up); AboveUp(t, x); AboveTrans(t, up, x, w); }
      ReachShrinks(t, maxDepth, pl, w, d, up, p);
    }
  }

  lemma {:induction false} AboveUp(t: Tree, x: Window)
    requires x in t && HasParent(t, x)
    ensures Above(t, t[x].parent, x)
  {
    assert Above(t, t[x].parent, t[x].parent);
  }

  lemma {:induction false} RelinkedParent(t: Tree, up: Window, kids: seq<Window>, x: Window)
    requires x in t
    ensures x in Relinked(t, up, kids) && Relinked(t, up, kids)[x].parent == t[x].parent && Relinked(t, up, kids)[x].depth == t[x].depth
  {
  }

  // ----- The backing store -----

  lemma {:induction false} RestackStoreAt(s1: State, root: Window, maxDepth: nat, w: Window, order: seq<Window>, up: bool, x: Window)
    requires s1.Domains() && Level(s1.tree, maxDepth, w, order) && x in s1.tree
    ensures var t := RestackPrepared(s1, maxDepth, w, order, up);
            && t.content == s1.content && t.screen == s1.screen && t.tree == s1.tree && t.place == s1.place
            && t.store[x] == SavedStore(s1, s1.place[w].pos, SaveVisits(s1.tree, maxDepth, w, order, up))[x]
  {
    hide SavedStore, SaveVisits, Shape;
  }

  /** Saving and coherence do not depend on the tree. */
  lemma {:induction false} TreeAside(s: State, s1: State, x: Window, r: Rect, list: seq<Window>)
    requires s.Domains() && s1.Domains() && s1 == s.(tree := s1.tree) && x in s.tree && x in s1.tree
    ensures Coherent(s, x) <==> Coherent(s1, x)
    ensures SavedStore(s1, r, list)[x] == SavedStore(s, r, list)[x]
    ensures FullyShown(s1, x) <==> FullyShown(s, x)
  {
  }

  lemma {:induction false} RestackOutside(s: State, root: Window, maxDepth: nat, w: Window, d: Passage, x: Window)
    requires Passes(s, root, maxDepth, w, d) && s.place[w].isOpen && x in s.tree && Coherent(s, x) && !Above(s.tree, w, x)
    ensures var s1, rs := Restacked(s, w, d), [s.place[w].pos];
            && s1.Domains() && Level(s1.tree, maxDepth, w, d.Order())
            && var t, list := RestackPrepared(s1, maxDepth, w, d.Order(), d.up), RedrawVisits(s1.tree, maxDepth, w, d.Order(), d.up);
            Ready(t, rs, list, x) && !Stale(t, rs, list, x)
  {
    hide Usable, TreeOK, Shape, PlacesOK, AllShownOK, Distinct, Above, Level, RestackPrepared, Restacked, SavedStore, SaveVisits, RedrawVisits, SavedFor, OnlyDiffersAt, OnlyAffects, Uncovers, Coherent, Ready, Stale, Exchanged;
    PassedTree(s, root, maxDepth, w, d);
    UsableTree(s, root, maxDepth, w);
    var s1, r, order := Restacked(s, w, d), s.place[w].pos, d.Order();
    LevelParts(s1.tree, maxDepth, w, order);
    var t, saves, list := RestackPrepared(s1, maxDepth, w, order, d.up), SaveVisits(s1.tree, maxDepth, w, order, d.up), RedrawVisits(s1.tree, maxDepth, w, order, d.up);
    RestackSound(s, root, maxDepth, w, d);
    RestackStoreAt(s1, root, maxDepth, w, order, d.up, x);
    TreeAside(s, s1, x, r, saves);
    SavedOutside(s, root, maxDepth, t, r, saves, x);
    forall p | Uncovers(t.tree, t.place, s.tree, s.place, w, x, p) ensures x in saves && r.Has(p) {
      NewlyCovered(s, root, maxDepth, w, d, x, p);
    }
    forall p | Uncovers(s.tree, s.place, t.tree, t.place, w, x, p) ensures x in list && Covers([r], p) {
      NewlyFree(s, root, maxDepth, w, d, x, p);
      assert r in [r];
    }
    OutsideReady(s, t, w, root, maxDepth, r, x in saves, [r], list, x);
    forall p | x in list && Covers([r], p) ensures !Vis(s.tree, s.place, x, p) {
      RedrawnCovered(s, root, maxDepth, w, d, x, p);
    }
    OutsideNotStale(s, t, w, root, maxDepth, r, x in saves, [r], list, x);
  }

  /** The window newly covers pixels only on the way up, of windows that have been saved. */
  lemma {:induction false} NewlyCovered(s: State, root: Window, maxDepth: nat, w: Window, d: Passage, x: Window, p: Pixel)
    requires Passes(s, root, maxDepth, w, d) && x in s.tree && !Above(s.tree, w, x)
    requires var s1 := Restacked(s, w, d); s1.tree.Keys == s.tree.Keys && Uncovers(s1.tree, s.place, s.tree, s.place, w, x, p)
    ensures var s1 := Restacked(s, w, d);
            Level(s1.tree, maxDepth, w, d.Order()) && x in SaveVisits(s1.tree, maxDepth, w, d.Order(), d.up) && s.place[w].pos.Has(p)
  {
    hide Usable, TreeOK, Shape, PlacesOK, Distinct, Above, Restacked, OnlyDiffersAt, Exchanged, LeftOf;
    PassedTree(s, root, maxDepth, w, d);
    UsableTree(s, root, maxDepth, w);
    var t := Restacked(s, w, d).tree;
    var a :| a in t && Above(t, a, x) && CoveredBy(t, s.place, w, a, p) && !CoveredBy(s.tree, s.place, w, a, p);
    Outside(s.tree, t, w, a, x);
    assert a in d.Order();
    PassedSide(s, root, maxDepth, w, d, a);
    BlockHas(t, maxDepth, w, d.Order(), a, x);
  }

  lemma {:induction false} Outside(t0: Tree, t: Tree, w: Window, a: Window, x: Window)
    requires (forall y :: y in t ==> (Above(t, w, y) <==> Above(t0, w, y))) && !Above(t0, w, x) && Above(t, a, x)
    ensures a in t && x in t && !Above(t0, w, a)
  {
    AboveDepth(t, a, x);
    if Above(t0, w, a) { AboveTrans(t, w, a, x); }
  }

  lemma {:induction false} BlockHas(t: Tree, maxDepth: nat, w: Window, order: seq<Window>, a: Window, x: Window)
    requires Level(t, maxDepth, w, order) && a in order && Above(t, a, x)
    ensures x in BlockVisits(t, maxDepth, {}, w, order)
  {
    PreInSeq(t, maxDepth, {}, order, t[w].depth, a);
    PreMembers(t, maxDepth, a, x);
  }

  /** It uncovers pixels only on the way down, of windows that are going to be redrawn. */
  lemma {:induction false} NewlyFree(s: State, root: Window, maxDepth: nat, w: Window, d: Passage, x: Window, p: Pixel)
    requires Passes(s, root, maxDepth, w, d) && x in s.tree && !Above(s.tree, w, x)
    requires var s1 := Restacked(s, w, d); s1.tree.Keys == s.tree.Keys && Uncovers(s.tree, s.place, s1.tree, s.place, w, x, p)
    ensures var s1 := Restacked(s, w, d);
            Level(s1.tree, maxDepth, w, d.Order()) && x in RedrawVisits(s1.tree, maxDepth, w, d.Order(), d.up) && s.place[w].pos.Has(p)
  {
    hide Usable, TreeOK, Shape, PlacesOK, Distinct, Above, Restacked, Exchanged, LeftOf;
    PassedTree(s, root, maxDepth, w, d);
    UsableTree(s, root, maxDepth, w);
    var t := Restacked(s, w, d).tree;
    var a :| a in s.tree && Above(s.tree, a, x) && CoveredBy(s.tree, s.place, w, a, p) && !CoveredBy(t, s.place, w, a, p);
    AboveSame(s.tree, t, a, x);
    Outside(s.tree, t, w, a, x);
    assert a in d.Order();
    PassedSide(s, root, maxDepth, w, d, a);
    BlockHas(t, maxDepth, w, d.Order(), a, x);
  }

  /** What is redrawn on the way down was covered by the window before. */
  lemma {:induction false} RedrawnCovered(s: State, root: Window, maxDepth: nat, w: Window, d: Passage, x: Window, p: Pixel)
    requires Passes(s, root, maxDepth, w, d) && s.place[w].isOpen && x in s.tree && !Above(s.tree, w, x) && Covers([s.place[w].pos], p)
    requires var s1 := Restacked(s, w, d); Level(s1.tree, maxDepth, w, d.Order()) && x in RedrawVisits(s1.tree, maxDepth, w, d.Order(), d.up)
    ensures !Vis(s.tree, s.place, x, p)
  {
    hide Usable, TreeOK, Shape, PlacesOK, Distinct, Above, Restacked, Exchanged, LeftOf, BlockVisits, OnlyAffects;
    PassedTree(s, root, maxDepth, w, d);
    UsableTree(s, root, maxDepth, w);
    var t := Restacked(s, w, d).tree;
    PreAbove(t, maxDepth, {}, w);
    if !d.up {
      BlockVisited(t, maxDepth, {}, w, d.Order());
      var b :| b in d.Order() && Above(t, b, x);
      AboveSame(s.tree, t, b, x);
      PassedSide(s, root, maxDepth, w, d, b);
      if Vis(s.tree, s.place, x, p) { InAncestor(s.tree, s.place, b, x, p); }
    }
  }

  /** A window that is not redrawn is ready if nothing of it has become visible. */
  lemma {:induction false} ShrunkReady(s: State, t: State, rs: seq<Rect>, list: seq<Window>, x: Window)
    requires s.Domains() && t.Domains() && x in s.tree && x in t.tree && x !in list && Coherent(s, x)
    requires ShownOK(s.tree, s.place, x, s.shown[x]) && ShownOK(t.tree, t.place, x, t.shown[x])
    requires forall p :: Vis(t.tree, t.place, x, p) ==> Vis(s.tree, s.place, x, p)
    requires t.place[x] == s.place[x] && t.content == s.content && t.screen == s.screen
    requires !t.store[x].isDirty && BitmapWhole(t, x) && t.store[x].dirty == s.store[x].dirty
    ensures Ready(t, rs, list, x) && !Stale(t, rs, list, x)
  {
    hide Vis, BitmapWhole;
  }

  lemma {:induction false} RestackInside(s: State, root: Window, maxDepth: nat, w: Window, d: Passage, x: Window)
    requires Passes(s, root, maxDepth, w, d) && s.place[w].isOpen && x in s.tree && Coherent(s, x) && Above(s.tree, w, x)
    ensures var s1, rs := Restacked(s, w, d), [s.place[w].pos];
            && s1.Domains() && Level(s1.tree, maxDepth, w, d.Order())
            && var t, list := RestackPrepared(s1, maxDepth, w, d.Order(), d.up), RedrawVisits(s1.tree, maxDepth, w, d.Order(), d.up);
            Ready(t, rs, list, x) && !Stale(t, rs, list, x)
  {
    hide Usable, Sound, TreeOK, Shape, PlacesOK, AllShownOK, Distinct, Above, RestackPrepared, Restacked, SavedStore, SaveVisits, RedrawVisits, Coherent, Ready, Stale, Exchanged, ShownOK, Save, BitmapWhole, OnlyDiffersAt, OnlyAffects, Vis;
    PassedTree(s, root, maxDepth, w, d);
    UsableTree(s, root, maxDepth, w);
    var s1, r, order := Restacked(s, w, d), s.place[w].pos, d.Order();
    LevelParts(s1.tree, maxDepth, w, order);
    var t, saves, list := RestackPrepared(s1, maxDepth, w, order, d.up), SaveVisits(s1.tree, maxDepth, w, order, d.up), RedrawVisits(s1.tree, maxDepth, w, order, d.up);
    RestackSound(s, root, maxDepth, w, d);
    SoundAt(s, root, maxDepth, x);
    SoundAt(t, root, maxDepth, x);
    RestackStoreAt(s1, root, maxDepth, w, order, d.up, x);
    TreeAside(s, s1, x, r, saves);
    HereVisited(s1.tree, maxDepth, w, order, d.up, x);
    SavedIs(s, x, r, saves);
    MovedWhole(s, t, w, x);
    if d.up {
      assert r in [r];
      InsideReady(t, w, root, maxDepth, [r], list, x);
    } else {
      ParentHolds(s, root, maxDepth, w);
      IsRelinked(s, w, d);
      forall p | Vis(t.tree, t.place, x, p) ensures Vis(s.tree, s.place, x, p) {
        DownShrinks(s.tree, maxDepth, s.place, w, d, x, p);
      }
      ShrunkReady(s, t, [r], list, x);
    }
  }

  lemma {:induction false} SavedIs(s: State, x: Window, r: Rect, list: seq<Window>)
    requires s.Domains() && x in s.tree && x in list
    ensures SavedStore(s, r, list)[x] == Save(s, x, r).store[x]
  {
    hide Save;
  }

  lemma {:induction false} ParentHolds(s: State, root: Window, maxDepth: nat, w: Window)
    requires Usable(s, root, maxDepth, w)
    ensures w in s.tree && HasParent(s.tree, w) && ParentOK(s.tree, w)
  {
    NextIn(s.tree, maxDepth, root, w);
    assert ParentOK(s.tree, w);
  }

  /** The subtree of the window is always saved; it is redrawn on the way up only. */
  lemma {:induction false} HereVisited(t: Tree, maxDepth: nat, w: Window, order: seq<Window>, up: bool, x: Window)
    requires Level(t, maxDepth, w, order) && Distinct(order) && w !in order && x in t && Above(t, w, x)
    ensures x in SaveVisits(t, maxDepth, w, order, up)
    ensures x in RedrawVisits(t, maxDepth, w, order, up) <==> up
  {
    PreMembers(t, maxDepth, w, x);
    AllVisited(t, maxDepth, {}, w, order);
    BlockVisited(t, maxDepth, {}, w, order);
  }

  // ----- The whole operation -----

  lemma {:induction false} RestackIs(s1: State, maxDepth: nat, w: Window, order: seq<Window>, up: bool)
    requires s1.Domains() && Level(s1.tree, maxDepth, w, order)
    ensures RestackResult(s1, maxDepth, w, order, up) ==
            Fold(RestackPrepared(s1, maxDepth, w, order, up), RedrawContents([s1.place[w].pos]), RedrawVisits(s1.tree, maxDepth, w, order, up))
  {
    hide RestackPrepared, Fold, RedrawVisits, Shape;
  }

  /** window_restack keeps everything in order, and every coherent window coherent. */
  lemma {:induction false} RestackTheorem(s: State, root: Window, maxDepth: nat, w: Window, d: Passage)
    requires Passes(s, root, maxDepth, w, d) && s.place[w].isOpen
    ensures var s1 := Restacked(s, w, d);
            && s1.Domains() && Level(s1.tree, maxDepth, w, d.Order())
            && var s' := RestackResult(s1, maxDepth, w, d.Order(), d.up);
            && Sound(s', root, maxDepth) && s'.tree == s1.tree && s'.content == s.content && s'.place == s.place
            && (AllCoherent(s) ==> AllCoherent(s'))
  {
    hide *;
    PassedTree(s, root, maxDepth, w, d);
    UsableTree(s, root, maxDepth, w);
    var s1, rs, order := Restacked(s, w, d), [s.place[w].pos], d.Order();
    LevelParts(s1.tree, maxDepth, w, order);
    var t, list := RestackPrepared(s1, maxDepth, w, order, d.up), RedrawVisits(s1.tree, maxDepth, w, order, d.up);
    RestackStoreAt(s1, root, maxDepth, w, order, d.up, w);
    RestackSound(s, root, maxDepth, w, d);
    SaveVisited(s1.tree, maxDepth, w, order, d.up);
    RedrawAny(t, root, maxDepth, rs, list);
    RestackIs(s1, maxDepth, w, order, d.up);
    var s' := RestackResult(s1, maxDepth, w, order, d.up);
    if AllCoherent(s) {
      forall v | v in s.tree ensures v in s'.tree && Coherent(s', v) {
        CoherentAt(s, v);
        if Above(s.tree, w, v) { RestackInside(s, root, maxDepth, w, d, v); } else { RestackOutside(s, root, maxDepth, w, d, v); }
      }
      CoherentBut(s', w);
    }
  }

  // ----- A closed window is only relinked -----

  lemma {:induction false} RestackClosed(s: State, root: Window, maxDepth: nat, w: Window, d: Passage)
    requires Passes(s, root, maxDepth, w, d) && !s.place[w].isOpen
    ensures var s1 := Restacked(s, w, d);
            && s1.Domains() && Sound(s1, root, maxDepth) && (AllCoherent(s) ==> AllCoherent(s1))
  {
    hide Usable, Sound, TreeOK, Shape, PlacesOK, AllShownOK, Distinct, Above, Restacked, Coherent, ShownOK, Exchanged, OnlyAffects, OnlyDiffersAt, Level;
    PassedTree(s, root, maxDepth, w, d);
    UsableTree(s, root, maxDepth, w);
    var s1 := Restacked(s, w, d);
    SamePlaces(s.tree, s1.tree, s.place);
    forall v | v in s.tree ensures ShownOK(s1.tree, s1.place, v, s1.shown[v]) {
      ClosedKept(s, root, maxDepth, w, d, v);
    }
    MakeSound(s1, root, maxDepth);
    forall v | v in s.tree ensures Coherent(s, v) <==> Coherent(s1, v) {
      TreeAside(s, s1, v, s.place[w].pos, []);
    }
  }

  lemma {:induction false} ClosedKept(s: State, root: Window, maxDepth: nat, w: Window, d: Passage, v: Window)
    requires Passes(s, root, maxDepth, w, d) && !s.place[w].isOpen && v in s.tree
    ensures ShownOK(Restacked(s, w, d).tree, s.place, v, s.shown[v])
  {
    hide Usable, Sound, TreeOK, Shape, PlacesOK, AllShownOK, Distinct, Above, Restacked, ShownOK, Exchanged, OnlyAffects, OnlyDiffersAt, Level;
    PassedTree(s, root, maxDepth, w, d);
    UsableTree(s, root, maxDepth, w);
    SoundAt(s, root, maxDepth, v);
    var t := Restacked(s, w, d).tree;
    forall p ensures Vis(s.tree, s.place, v, p) <==> Vis(t, s.place, v, p) {
      if Above(s.tree, w, v) {
        ClosedBelow(s.tree, s.place, w, v);
        ClosedBelow(t, s.place, w, v);
      } else {
        VisSame(s.tree, maxDepth, s.place, t, s.place, w, v, p);
      }
    }
    ShownKept(s.tree, s.place, t, s.place, v, s.shown[v]);
  }

  // ----- The requested order of the siblings -----

  /** The siblings after moving `w` just above or just below `w2`. */
  ghost function NewOrder(kids: seq<Window>, w: Window, w2: Window, onTop: bool): seq<Window> {
    if onTop then InsertedBefore(Dropped(kids, w), w2, w) else InsertedAfter(Dropped(kids, w), w2, w)
  }

  ghost function IndexOf(kids: seq<Window>, x: Window): (i: nat)
    requires x in kids
    ensures i < |kids| && kids[i] == x
  {
    if kids[0] == x then 0 else 1 + IndexOf(kids[1..], x)
  }

  /** The passage that leads to it. */
  ghost function PassageOf(kids: seq<Window>, w: Window, w2: Window, onTop: bool): Passage
    requires w in kids && w2 in kids && w != w2
  {
    var i, j := IndexOf(kids, w), IndexOf(kids, w2);
    var m := if onTop then j else j + 1;
    if j < i then Passage(kids[..m], kids[m..i], kids[i + 1..], true) else Passage(kids[..i], kids[i + 1..m], kids[m..], false)
  }

  /** The index at which `w` is put in again. */
  ghost function NewIndex(kids: seq<Window>, w: Window, w2: Window, onTop: bool): nat
    requires w in kids && w2 in kids && w != w2
  {
    var i, j := IndexOf(kids, w), IndexOf(kids, w2);
    (if j < i then j else j - 1) + (if onTop then 0 else 1)
  }

  lemma {:induction false} PassageIs(kids: seq<Window>, w: Window, w2: Window, onTop: bool)
    requires Distinct(kids) && w in kids && w2 in kids && w != w2
    ensures var d, rest, n := PassageOf(kids, w, w2, onTop), Dropped(kids, w), NewIndex(kids, w, w2, onTop);
            && d.Old(w) == kids && d.New(w) == NewOrder(kids, w, w2, onTop)
            && n <= |rest| && NewOrder(kids, w, w2, onTop) == rest[..n] + [w] + rest[n..]
            && (if onTop then n < |rest| && rest[n] == w2 else 0 < n && rest[n - 1] == w2)
            && (d.up <==> IndexOf(kids, w2) < IndexOf(kids, w))
  {
    hide Passage.Old, Passage.New, Before, After, Distinct, NewOrder, PassageOf, Dropped;
    PassageParts(kids, w, w2, onTop);
    OrderParts(kids, w, w2, onTop);
  }

  lemma {:induction false} PassageParts(kids: seq<Window>, w: Window, w2: Window, onTop: bool)
    requires w in kids && w2 in kids && w != w2
    ensures var d, i, n := PassageOf(kids, w, w2, onTop), IndexOf(kids, w), NewIndex(kids, w, w2, onTop);
            var rest := kids[..i] + kids[i + 1..];
            && n <= |rest| && d.Old(w) == kids && d.New(w) == rest[..n] + [w] + rest[n..]
            && (d.up <==> IndexOf(kids, w2) < IndexOf(kids, w))
  {
    hide IndexOf, Passage.Old, Passage.New;
    var i, j, n := IndexOf(kids, w), IndexOf(kids, w2), NewIndex(kids, w, w2, onTop);
    if j < i { PartsUp(kids, n, i, w); } else { PartsDown(kids, i, n + 1, w); }
  }

  lemma {:induction false} OrderParts(kids: seq<Window>, w: Window, w2: Window, onTop: bool)
    requires Distinct(kids) && w in kids && w2 in kids && w != w2
    ensures var i, n, rest := IndexOf(kids, w), NewIndex(kids, w, w2, onTop), Dropped(kids, w);
            && rest == kids[..i] + kids[i + 1..] && n <= |rest| && NewOrder(kids, w, w2, onTop) == rest[..n] + [w] + rest[n..]
            && (if onTop then n < |rest| && rest[n] == w2 else 0 < n && rest[n - 1] == w2)
  {
    hide *;
    var i, j := IndexOf(kids, w), IndexOf(kids, w2);
    var rest, k := Dropped(kids, w), if j < i then j else j - 1;
    DroppedAt(kids, i);
    RemovedChain(kids, i);
    RestAt(kids, i, j);
    PutIn(rest, k, w);
    OrderIs(kids, w, w2, onTop);
  }

  lemma {:induction false} OrderIs(kids: seq<Window>, w: Window, w2: Window, onTop: bool)
    requires w in kids && w2 in kids && w != w2
    ensures NewOrder(kids, w, w2, onTop) == if onTop then InsertedBefore(Dropped(kids, w), w2, w) else InsertedAfter(Dropped(kids, w), w2, w)
    ensures var i, j := IndexOf(kids, w), IndexOf(kids, w2);
            NewIndex(kids, w, w2, onTop) == (if j < i then j else j - 1) + (if onTop then 0 else 1)
  {
    hide InsertedBefore, InsertedAfter, Dropped, IndexOf;
  }

  lemma {:induction false} PutIn(rest: seq<Window>, k: nat, w: Window)
    requires Distinct(rest) && k < |rest|
    ensures InsertedBefore(rest, rest[k], w) == rest[..k] + [w] + rest[k..]
    ensures InsertedAfter(rest, rest[k], w) == rest[..k + 1] + [w] + rest[k + 1..]
  {
    hide Distinct, Before, After;
    SplitAt(rest, k);
    PutBack(rest, k, w);
  }

  lemma {:induction false} DroppedAt(kids: seq<Window>, i: nat)
    requires Distinct(kids) && i < |kids|
    ensures Dropped(kids, kids[i]) == kids[..i] + kids[i + 1..]
  {
    SplitAt(kids, i);
  }

  lemma {:induction false} RestAt(kids: seq<Window>, i: nat, j: nat)
    requires i < |kids| && j < |kids| && i != j
    ensures (kids[..i] + kids[i + 1..])[if j < i then j else j - 1] == kids[j]
  {
  }

  /** Inserting at an index, above or below its element. */
  lemma {:induction false} PutBack(rest: seq<Window>, k: nat, w: Window)
    requires k < |rest|
    ensures rest[..k] + [w, rest[k]] + rest[k + 1..] == rest[..k] + [w] + rest[k..]
    ensures rest[..k] + [rest[k], w] + rest[k + 1..] == rest[..k + 1] + [w] + rest[k + 1..]
  {
  }

  lemma {:induction false} PartsUp(kids: seq<Window>, m: nat, i: nat, w: Window)
    requires m <= i < |kids| && kids[i] == w
    ensures var d, rest := Passage(kids[..m], kids[m..i], kids[i + 1..], true), kids[..i] + kids[i + 1..];
            d.Old(w) == kids && d.New(w) == rest[..m] + [w] + rest[m..]
  {
    var rest := kids[..i] + kids[i + 1..];
    assert rest[..m] == kids[..m] && rest[m..] == kids[m..i] + kids[i + 1..];
    assert kids == kids[..m] + kids[m..i] + [w] + kids[i + 1..];
  }

  lemma {:induction false} PartsDown(kids: seq<Window>, i: nat, m: nat, w: Window)
    requires i < m <= |kids| && kids[i] == w
    ensures var d, rest := Passage(kids[..i], kids[i + 1..m], kids[m..], false), kids[..i] + kids[i + 1..];
            d.Old(w) == kids && d.New(w) == rest[..m - 1] + [w] + rest[m - 1..]
  {
    var rest := kids[..i] + kids[i + 1..];
    assert rest[..m - 1] == kids[..i] + kids[i + 1..m] && rest[m - 1..] == kids[m..];
    assert kids == kids[..i] + [w] + kids[i + 1..m] + kids[m..];
  }

  /** If the window is already where it is wanted, the new order is the old one. */
  lemma {:induction false} AlreadyThere(kids: seq<Window>, w: Window, w2: Window, onTop: bool)
    requires Distinct(kids) && w in kids && w2 in kids && w != w2
    ensures var d := PassageOf(kids, w, w2, onTop);
            && (d.passed == [] <==> if onTop then First(After(kids, w)) == w2 else Last(Before(kids, w)) == w2)
            && (d.passed == [] ==> NewOrder(kids, w, w2, onTop) == kids)
  {
    hide Before, After, NewOrder;
    PassageIs(kids, w, w2, onTop);
    Neighbours(kids, IndexOf(kids, w));
    NothingPassed(w, PassageOf(kids, w, w2, onTop));
  }

  lemma {:induction false} NothingPassed(w: Window, d: Passage)
    ensures d.passed == [] ==> d.New(w) == d.Old(w)
  {
  }

  /** Relinking a tree with the child list that it has changes nothing. */
  lemma {:induction false} RelinkedSame(t: Tree, maxDepth: nat, up: Window)
    requires Shape(t, maxDepth) && up in t
    ensures Relinked(t, up, t[up].kids) == t
  {
    KidsAt(t, maxDepth, up);
    var kids := t[up].kids;
    var t' := Relinked(t, up, kids);
    forall x | x in t ensures t'[x] == t[x] {
      if x in kids {
        var i :| 0 <= i < |kids| && kids[i] == x;
        Neighbours(kids, i);
        ChainAt(t, kids, i);
      }
    }
  }

  // ----- Following the links from sibling to sibling -----

  /** The links lead through `order` to `w`: to the left when the window has moved up. */
  ghost predicate LedTo(t: Tree, order: seq<Window>, w: Window, up: bool) {
    forall i {:trigger LedAt(t, order, w, up, i)} :: 0 <= i < |order| ==> LedAt(t, order, w, up, i)
  }

  ghost predicate LedAt(t: Tree, order: seq<Window>, w: Window, up: bool, i: nat)
    requires i < |order|
  {
    && order[i] in t && order[i] != w
    && (if up then t[order[i]].prev else t[order[i]].next) == (if i + 1 < |order| then order[i + 1] else w)
  }

  lemma {:induction false} OrderLed(t: Tree, w: Window, d: Passage)
    requires (forall k :: k in d.New(w) ==> k in t) && ChainOK(t, d.New(w)) && Distinct(d.New(w))
    ensures LedTo(t, d.Order(), w, d.up)
  {
    var kids, order, n, m := d.New(w), d.Order(), |d.above|, |d.passed|;
    forall i | 0 <= i < |order| ensures LedAt(t, order, w, d.up, i) {
      if d.up {
        assert kids[n] == w && kids[n + m - i] == order[i] && order[i] in kids;
        ChainAt(t, kids, n + m - i);
      } else {
        assert kids[n + m] == w && kids[n + i] == order[i] && order[i] in kids;
        ChainAt(t, kids, n + i);
      }
    }
  }

  /** The old links of the window lead to the first of the passed siblings. */
  lemma {:induction false} FirstPassed(t: Tree, w: Window, d: Passage)
    requires (forall k :: k in d.Old(w) ==> k in t) && ChainOK(t, d.Old(w)) && d.passed != []
    ensures w in t && d.Order() != [] && (if d.up then t[w].prev else t[w].next) == d.Order()[0]
  {
    var kids, n, m := d.Old(w), |d.above|, |d.passed|;
    if d.up {
      assert kids[n + m] == w && kids[n + m - 1] == d.passed[m - 1];
      ChainAt(t, kids, n + m);
    } else {
      assert kids[n] == w && kids[n + 1] == d.passed[0];
      ChainAt(t, kids, n);
    }
  }

  // ----- One round of the loop over the passed siblings -----

  lemma {:induction false} BlockStep(t: Tree, maxDepth: nat, cut: set<Window>, order: seq<Window>, d: nat, i: nat)
    requires Shape(t, maxDepth) && OnLevel(t, order, d) && i < |order|
    ensures order[i] in t
    ensures PreSeq(t, maxDepth, cut, order[i..], d) == Pre(t, maxDepth, cut, order[i]) + PreSeq(t, maxDepth, cut, order[i + 1..], d)
  {
    assert order[i..][0] == order[i] && order[i..][1..] == order[i + 1..];
    assert order[i] in order;
  }

  /** The loop over the block has come to its i-th window: what is left leads to `goal`. */
  ghost predicate BlockAt(s: State, root: Window, v: Visitor, cut: set<Window>, t: Tree, maxDepth: nat, order: seq<Window>, d: nat, i: nat, goal: State) {
    && Shape(t, maxDepth) && OnLevel(t, order, d) && i <= |order| && NullSafe(s, root, v) && Turns(s, v) == cut
    && OnLevel(t, order[i..], d) && Fold(s, v, PreSeq(t, maxDepth, cut, order[i..], d)) == goal
  }

  lemma {:induction false} BlockStart(s: State, root: Window, v: Visitor, t: Tree, maxDepth: nat, order: seq<Window>, d: nat)
    requires Shape(t, maxDepth) && OnLevel(t, order, d) && NullSafe(s, root, v)
    ensures BlockAt(s, root, v, Turns(s, v), t, maxDepth, order, d, 0, Fold(s, v, PreSeq(t, maxDepth, Turns(s, v), order, d)))
  {
    hide Shape, NullSafe, Turns, Fold, PreSeq;
    assert order[0..] == order;
  }

  /** Visiting one window of the block, with everything below it. */
  lemma {:induction false} BlockRound(s: State, root: Window, v: Visitor, cut: set<Window>, t: Tree, maxDepth: nat, order: seq<Window>, d: nat, i: nat, goal: State)
    requires BlockAt(s, root, v, cut, t, maxDepth, order, d, i, goal) && i < |order|
    ensures Shape(t, maxDepth) && order[i] in t && NullSafe(s, root, v) && Turns(s, v) == cut
    ensures BlockAt(Fold(s, v, Pre(t, maxDepth, cut, order[i])), root, v, cut, t, maxDepth, order, d, i + 1, goal)
  {
    hide Shape, NullSafe, Turns, Fold, Pre, PreSeq;
    BlockStep(t, maxDepth, cut, order, d, i);
    FoldConcat(s, v, Pre(t, maxDepth, cut, order[i]), PreSeq(t, maxDepth, cut, order[i + 1..], d));
    FoldKeeps(s, root, v, Pre(t, maxDepth, cut, order[i]));
  }

  lemma {:induction false} BlockEnd(s: State, root: Window, v: Visitor, cut: set<Window>, t: Tree, maxDepth: nat, order: seq<Window>, d: nat, goal: State)
    requires BlockAt(s, root, v, cut, t, maxDepth, order, d, |order|, goal)
    ensures s == goal && NullSafe(s, root, v) && Turns(s, v) == cut
  {
    hide Shape, NullSafe, Turns, Fold;
    assert order[|order|..] == [];
    FoldNothing(s, v);
  }

  /** The indices tell which of two siblings is on top. */
  lemma {:induction false} RightIndex(t: Tree, root: Window, maxDepth: nat, w: Window, w2: Window)
    requires TreeOK(t, root, maxDepth) && w in t && w2 in t && w != w2 && t[w].parent != null && t[w].parent == t[w2].parent
    ensures t[w].parent in t && w in t[t[w].parent].kids && w2 in t[t[w].parent].kids && Distinct(t[t[w].parent].kids)
    ensures var kids := t[t[w].parent].kids; w in RightOf(t, w2) <==> IndexOf(kids, w2) < IndexOf(kids, w)
  {
    assert ParentOK(t, w) && ParentOK(t, w2);
    var up := t[w].parent;
    KidsAt(t, maxDepth, up);
    var kids := t[up].kids;
    KidHasParent(t, maxDepth, up, w2);
    var i, j := IndexOf(kids, w), IndexOf(kids, w2);
    SplitAt(kids, j);
    if j < i { assert kids[j + 1..][i - j - 1] == w; }
    if w in kids[j + 1..] {
      var n :| 0 <= n < |kids[j + 1..]| && kids[j + 1..][n] == w;
      assert kids[j + 1 + n] == w;
    }
  }

  lemma {:induction false} OrderMore(kids: seq<Window>, w: Window, w2: Window, onTop: bool)
    requires Distinct(kids) && w in kids && w2 in kids && w != w2
    ensures forall k :: k in Dropped(kids, w) ==> k in NewOrder(kids, w, w2, onTop)
  {
    hide NewOrder, Dropped, Before, After, Distinct;
    PassageIs(kids, w, w2, onTop);
    var rest, n := Dropped(kids, w), NewIndex(kids, w, w2, onTop);
    assert rest == rest[..n] + rest[n..];
  }

  // ----- The parts of a visiting order -----

  lemma {:induction false} VisitsParts(t: Tree, maxDepth: nat, cut: set<Window>, w: Window, order: seq<Window>, up: bool)
    requires Level(t, maxDepth, w, order)
    ensures AllVisits(t, maxDepth, cut, w, order) == PreSeq(t, maxDepth, cut, order, t[w].depth) + Pre(t, maxDepth, cut, w)
    ensures SaveVisits(t, maxDepth, w, order, up) == if up then AllVisits(t, maxDepth, {}, w, order) else Pre(t, maxDepth, {}, w)
    ensures RedrawVisits(t, maxDepth, w, order, up) == if up then Pre(t, maxDepth, {}, w) else PreSeq(t, maxDepth, {}, order, t[w].depth)
  {
    hide Pre, PreSeq, Shape;
  }

  lemma {:induction false} LevelParts(t: Tree, maxDepth: nat, w: Window, order: seq<Window>)
    requires Level(t, maxDepth, w, order)
    ensures Shape(t, maxDepth) && w in t && OnLevel(t, order, t[w].depth)
  {
  }

  lemma {:induction false} RestackedPlaces(s: State, w: Window, d: Passage)
    requires s.Domains() && w in s.tree && s.tree[w].parent != null
    ensures var s1 := Restacked(s, w, d);
            s1.place == s.place && s1.shown == s.shown && s1.store == s.store && s1.content == s.content && s1.screen == s.screen
            && s1.tree.Keys == s.tree.Keys && s1.Domains()
  {
  }

  lemma {:induction false} SavedPlaces(s1: State, maxDepth: nat, w: Window, order: seq<Window>, up: bool)
    requires s1.Domains() && Level(s1.tree, maxDepth, w, order)
    ensures var t := RestackSaved(s1, maxDepth, w, order, up);
            t.Domains() && t.tree == s1.tree && t.place == s1.place && t.shown == s1.shown && t.place.Keys == s1.tree.Keys
  {
    hide SavedStore;
  }

  lemma {:induction false} LedApart(t: Tree, order: seq<Window>, w: Window, up: bool)
    requires LedTo(t, order, w, up)
    ensures forall i :: 0 <= i < |order| ==> order[i] != w
  {
    forall i | 0 <= i < |order| ensures order[i] != w { assert LedAt(t, order, w, up, i); }
  }

  lemma {:induction false} PassedLed(s: State, root: Window, maxDepth: nat, w: Window, d: Passage)
    requires Passes(s, root, maxDepth, w, d) && s.Domains() && w in s.tree && s.tree[w].parent != null
    ensures LedTo(Restacked(s, w, d).tree, d.Order(), w, d.up)
  {
    hide Passage.Old, Usable, LedTo, Distinct, ChainOK, Exchanged, OnlyAffects, OnlyDiffersAt;
    PassedTree(s, root, maxDepth, w, d);
    var t := Restacked(s, w, d).tree;
    KidsAt(t, maxDepth, s.tree[w].parent);
    OrderLed(t, w, d);
  }

  lemma {:induction false} NextAndPrev(t: Tree, maxDepth: nat, up: Window, w: Window)
    requires Shape(t, maxDepth) && up in t && w in t[up].kids
    ensures w in t && t[w].next == First(After(t[up].kids, w)) && t[w].prev == Last(Before(t[up].kids, w))
  {
    KidsAt(t, maxDepth, up);
    var kids := t[up].kids;
    var i :| 0 <= i < |kids| && kids[i] == w;
    Neighbours(kids, i);
    ChainAt(t, kids, i);
  }

  /** Moving to the top or to the bottom */
  lemma {:induction false} OrderEnds(kids: seq<Window>, w: Window)
    requires Distinct(kids) && w in kids
    ensures w == kids[0] ==> [w] + Dropped(kids, w) == kids
    ensures w != kids[0] ==> NewOrder(kids, w, kids[0], true) == [w] + Dropped(kids, w)
    ensures w == kids[|kids| - 1] ==> Dropped(kids, w) + [w] == kids
    ensures w != kids[|kids| - 1] ==> NewOrder(kids, w, kids[|kids| - 1], false) == Dropped(kids, w) + [w]
  {
    hide NewOrder, Dropped, Before, After, Distinct, IndexOf;
    var i, n := IndexOf(kids, w), |kids| - 1;
    DroppedAt(kids, i);
    if w == kids[0] {
      IndexIs(kids, 0);
      assert [w] + (kids[..0] + kids[1..]) == kids;
    } else {
      TopOrder(kids, w);
    }
    if w == kids[n] {
      IndexIs(kids, n);
      assert kids[..n] + kids[n + 1..] + [w] == kids;
    } else {
      BottomOrder(kids, w);
    }
  }

  lemma {:induction false} TopOrder(kids: seq<Window>, w: Window)
    requires Distinct(kids) && w in kids && w != kids[0]
    ensures NewOrder(kids, w, kids[0], true) == [w] + Dropped(kids, w)
  {
    hide NewOrder, Dropped, Distinct, IndexOf, PassageOf;
    IndexIs(kids, 0);
    PassageIs(kids, w, kids[0], true);
    AtEnds(Dropped(kids, w), w);
  }

  lemma {:induction false} BottomOrder(kids: seq<Window>, w: Window)
    requires Distinct(kids) && w in kids && w != kids[|kids| - 1]
    ensures NewOrder(kids, w, kids[|kids| - 1], false) == Dropped(kids, w) + [w]
  {
    hide NewOrder, Dropped, Distinct, IndexOf, PassageOf;
    IndexIs(kids, |kids| - 1);
    PassageIs(kids, w, kids[|kids| - 1], false);
    DroppedAt(kids, IndexOf(kids, w));
    AtEnds(Dropped(kids, w), w);
  }

  lemma {:induction false} AtEnds(s: seq<Window>, w: Window)
    ensures s[..0] + [w] + s[0..] == [w] + s && s[..|s|] + [w] + s[|s|..] == s + [w]
  {
  }

  lemma {:induction false} IndexIs(kids: seq<Window>, i: nat)
    requires Distinct(kids) && i < |kids|
    ensures IndexOf(kids, kids[i]) == i
  {
  }

  /** The state after restacking: relinked, and if the window is open, saved, rebuilt and redrawn. */
  ghost predicate RestackEnd(s: State, s': State, maxDepth: nat, w: Window, d: Passage) {
    && s.Domains() && w in s.tree && s.tree[w].parent != null
    && var s1 := Restacked(s, w, d);
    if s.place[w].isOpen then Level(s1.tree, maxDepth, w, d.Order()) && s' == RestackResult(s1, maxDepth, w, d.Order(), d.up)
    else s' == s1
  }

  lemma {:induction false} RestackEndIs(s: State, s': State, maxDepth: nat, w: Window, d: Passage)
    requires s.Domains() && w in s.tree && s.tree[w].parent != null
    requires w in s.place && !s.place[w].isOpen ==> s' == Restacked(s, w, d)
    requires w in s.place && s.place[w].isOpen ==>
               Level(Restacked(s, w, d).tree, maxDepth, w, d.Order()) && s' == RestackResult(Restacked(s, w, d), maxDepth, w, d.Order(), d.up)
    ensures RestackEnd(s, s', maxDepth, w, d)
  {
    hide Restacked, RestackResult, Level, Passage.Order;
  }

  lemma {:induction false} RestackEnds(s: State, s': State, maxDepth: nat, w: Window, d: Passage)
    requires RestackEnd(s, s', maxDepth, w, d)
    ensures s.Domains() && w in s.tree && s.tree[w].parent != null && w in s.place
    ensures !s.place[w].isOpen ==> s' == Restacked(s, w, d)
    ensures s.place[w].isOpen ==>
              Level(Restacked(s, w, d).tree, maxDepth, w, d.Order()) && s' == RestackResult(Restacked(s, w, d), maxDepth, w, d.Order(), d.up)
  {
    hide Restacked, RestackResult, Level, Passage.Order;
  }
}
