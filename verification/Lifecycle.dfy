/** window_create and window_delete (server/window.c:975-1011, 1244-1315): a window appears as
    a closed leaf of the tree, and disappears as one. */
module Lifecycle {
  import opened Geometry
  import opened WindowTree
  import opened Orders
  import opened Visibility
  import opened VisibleRects
  import opened Changes
  import opened Linking
  import opened Restacking
  import opened Steps
  import opened Visitors
  import opened Backing
  import opened Coherence
  import opened Opening
  import opened Reordering
  import opened Closing
  import opened Rooted

  const BORDERWIDTH := 4

  /** A border takes four pixels on every side of the working area, and with a border the
      title takes a bar above it. */
  ghost predicate Margins(a: Place, border: bool, title: bool, titleHeight: int) {
    var side := if border then 4 else 0;
    && a.area.x0 == side && a.pos.w - a.area.XR() == side && a.pos.h - a.area.YU() == side
    && a.area.y0 - a.area.x0 == (if border && title then 4 + titleHeight else 0)
    && (a.work == a.pos <==> !border)
  }

  /** createBitmap: the place of a new window with a working area of the given size.  Without
      a border there is no title either. */
  function NewPlace(width: int, height: int, border: bool, title: bool, titleHeight: int): (a: Place)
    requires 0 < width && 0 < height && 0 <= titleHeight
    ensures PlaceOK(a) && !a.isOpen && a.pos.x0 == a.pos.y0 == 0
    ensures a.area.w == width && a.area.h == height && Margins(a, border, title, titleHeight)
  {
    var wx := if border then BORDERWIDTH else 0;
    var top := if border && title then 4 + titleHeight else 0;
    var area := Rect(wx, wx + top, width, height);
    Place(Rect(0, 0, width + 2 * wx, height + 2 * wx + top), area, area, false)
  }

  // ----- A new leaf -----

  /** `w` is the new first child of `parent`. */
  ghost function Sown(t: Tree, parent: Window, w: Window): (m: Tree)
    requires parent in t
    ensures m.Keys == t.Keys + {w}
  {
    t[w := Node(null, null, parent, null, [], t[parent].depth + 1)]
  }

  ghost function Planted(t: Tree, parent: Window, w: Window): (m: Tree)
    requires parent in t
    ensures m.Keys == t.Keys + {w}
  {
    Relinked(Sown(t, parent, w), parent, [w] + t[parent].kids)
  }

  lemma {:induction false} DeeperOK(t: Tree, maxDepth: nat, root: Window, more: nat)
    requires TreeOK(t, root, maxDepth) && maxDepth <= more
    ensures TreeOK(t, root, more)
  {
    forall x | x in t ensures KidsOK(t, x, more) { assert KidsOK(t, x, maxDepth); }
    forall x | x in t && t[x].parent != null ensures ParentOK(t, x) { assert ParentOK(t, x); }
  }

  lemma {:induction false} NewKids(t: Tree, maxDepth: nat, parent: Window, w: Window)
    requires Shape(t, maxDepth) && parent in t && w !in t
    ensures var kids := [w] + t[parent].kids;
            Distinct(kids) && parent !in kids && forall k :: k in kids ==> k in t.Keys + {w}
  {
    KidsAt(t, maxDepth, parent);
    var kids := [w] + t[parent].kids;
    forall i, j | 0 <= i < j < |kids| ensures kids[i] != kids[j] {
      assert kids[j] == t[parent].kids[j - 1] && kids[j] in t[parent].kids;
      if 0 < i { assert kids[i] == t[parent].kids[i - 1]; }
    }
  }

  lemma {:induction false} PlantedKids(t: Tree, maxDepth: nat, root: Window, parent: Window, w: Window, x: Window)
    requires TreeOK(t, root, maxDepth) && parent in t && w !in t && t[parent].depth < maxDepth && x in Planted(t, parent, w)
    ensures KidsOK(Planted(t, parent, w), x, maxDepth)
  {
    hide Shape;
    var t1, kids := Sown(t, parent, w), [w] + t[parent].kids;
    NewKids(t, maxDepth, parent, w);
    KidsAt(t, maxDepth, parent);
    DepthBound(t, maxDepth, if x == w then parent else x);
    if x == parent {
      ChainRelinked(t1, parent, kids);
    } else if x != w {
      KidsAt(t, maxDepth, x);
      assert forall k :: k in t[x].kids ==> k in t1 && t[k].parent == x && k !in kids;
      ChainSown(t, parent, w, t[x].kids);
      ChainKept(t1, parent, kids, t[x].kids);
    }
  }

  lemma {:induction false} ChainSown(t: Tree, parent: Window, w: Window, list: seq<Window>)
    requires parent in t && w !in t && (forall k :: k in list ==> k in t) && ChainOK(t, list)
    ensures ChainOK(Sown(t, parent, w), list)
  {
    forall i | 0 <= i < |list| ensures Sown(t, parent, w)[list[i]] == t[list[i]] { assert list[i] in list; }
  }

  lemma {:induction false} PlantedOK(t: Tree, maxDepth: nat, root: Window, parent: Window, w: Window)
    requires TreeOK(t, root, maxDepth) && parent in t && w !in t && t[parent].depth < maxDepth
    ensures TreeOK(Planted(t, parent, w), root, maxDepth)
  {
    hide Shape, KidsOK;
    var t' := Planted(t, parent, w);
    forall x | x in t' ensures KidsOK(t', x, maxDepth) { PlantedKids(t, maxDepth, root, parent, w, x); }
    forall x | x in t' && t'[x].parent != null ensures ParentOK(t', x) { PlantedParent(t, maxDepth, root, parent, w, x); }
    MakeShape(t', maxDepth);
    RootPlanted(t, maxDepth, root, parent, w);
  }

  lemma {:induction false} MakeShape(t: Tree, maxDepth: nat)
    requires (forall x :: x in t ==> KidsOK(t, x, maxDepth)) && forall x :: x in t && t[x].parent != null ==> ParentOK(t, x)
    ensures Shape(t, maxDepth)
  {
  }

  lemma {:induction false} PlantedParent(t: Tree, maxDepth: nat, root: Window, parent: Window, w: Window, x: Window)
    requires TreeOK(t, root, maxDepth) && parent in t && w !in t && x in Planted(t, parent, w) && Planted(t, parent, w)[x].parent != null
    ensures ParentOK(Planted(t, parent, w), x)
  {
    if x != w { assert ParentOK(t, x); }
  }

  lemma {:induction false} RootPlanted(t: Tree, maxDepth: nat, root: Window, parent: Window, w: Window)
    requires TreeOK(t, root, maxDepth) && parent in t && w !in t
    ensures var t' := Planted(t, parent, w);
            && root in t' && t'[root].next == null && t'[root].prev == null && t'[root].depth == 0
            && (forall x :: x in t' ==> (t'[x].parent == null <==> x == root))
  {
    KidsAt(t, maxDepth, parent);
    assert root !in t[parent].kids;
  }

  // ----- Creating -----

  /** The state after window_create and createBitmap. */
  ghost function Created(s: State, parent: Window, w: Window, place: Place, blank: Picture): (s': State)
    requires s.Domains() && parent in s.tree
    ensures s'.Domains() && s'.tree == Planted(s.tree, parent, w)
  {
    State(Planted(s.tree, parent, w), s.place[w := place], s.shown[w := Shown([], false)],
          s.store[w := Store(blank, false, Rect(0, 0, 0, 0))], s.content[w := blank], s.screen)
  }

  lemma {:induction false} PlantedLeaf(t: Tree, maxDepth: nat, root: Window, parent: Window, w: Window, pl: Places, place: Place)
    requires TreeOK(t, root, maxDepth) && t.Keys == pl.Keys && parent in t && w !in t && t[parent].depth < maxDepth && !place.isOpen
    ensures HiddenLeaf(Planted(t, parent, w), pl[w := place], t, pl, w)
  {
    hide Shape, LeftOf, SameBut;
    var t' := Planted(t, parent, w);
    forall x | x in t ensures LeafGone(t', t, w, x) { PlantedAt(t, maxDepth, root, parent, w, x); }
    assert HasParent(t', w);
  }

  lemma {:induction false} PlantedAt(t: Tree, maxDepth: nat, root: Window, parent: Window, w: Window, x: Window)
    requires TreeOK(t, root, maxDepth) && parent in t && w !in t && x in t
    ensures LeafGone(Planted(t, parent, w), t, w, x)
  {
    hide Shape;
    var t' := Planted(t, parent, w);
    KidsAt(t, maxDepth, x);
    if t[x].parent != null { ParentAt(t, maxDepth, root, x); }
    LeftPlanted(t, maxDepth, parent, w, x);
  }

  lemma {:induction false} LeftPlanted(t: Tree, maxDepth: nat, parent: Window, w: Window, x: Window)
    requires Shape(t, maxDepth) && parent in t && w !in t && x in t && (t[x].parent != null ==> HasParent(t, x) && ParentOK(t, x))
    ensures var t' := Planted(t, parent, w);
            && w !in LeftOf(t, x) && SameBut(LeftOf(t', x), LeftOf(t, x), [w])
            && (w in LeftOf(t', x) ==> HasParent(t', x) && t'[x].parent == parent)
  {
    hide Shape, Before, After, Distinct;
    var t' := Planted(t, parent, w);
    if t[x].parent != null {
      var q := t[x].parent;
      KidsAt(t, maxDepth, q);
      SplitAround(t[q].kids, x);
      BeforeFirst(t[q].kids, w, x);
    }
  }

  lemma {:induction false} BeforeFirst(kids: seq<Window>, w: Window, x: Window)
    requires x != w
    ensures Before([w] + kids, x) == [w] + Before(kids, x)
  {
    assert ([w] + kids)[1..] == kids;
  }

  /** Creating a window keeps the invariant, and every window coherent. */
  lemma {:induction false} CreateKeeps(s: State, root: Window, background: Window, maxDepth: nat, parent: Window, w: Window, place: Place, blank: Picture)
    requires Fine(s, root, background, maxDepth) && parent in s.tree && w !in s.tree && s.tree[parent].depth < maxDepth
    requires PlaceOK(place) && !place.isOpen
    ensures var s' := Created(s, parent, w, place, blank);
            Fine(s', root, background, maxDepth) && (AllCoherent(s) ==> AllCoherent(s'))
  {
    hide Sound, TreeOK, Shape, PlacesOK, AllShownOK, Coherent, ShownOK, HiddenLeaf, Planted;
    FineParts(s, root, background, maxDepth);
    var s' := Created(s, parent, w, place, blank);
    PlantedOK(s.tree, maxDepth, root, parent, w);
    PlantedLeaf(s.tree, maxDepth, root, parent, w, s.place, place);
    PlacesAdded(s.tree, s.place, s'.tree, w, place);
    forall x | x in s'.tree ensures ShownOK(s'.tree, s'.place, x, s'.shown[x]) {
      if x == w {
        ShownNothing(s'.tree, s'.place, w, s'.shown[w]);
      } else {
        SoundAt(s, root, maxDepth, x);
        ShownWithoutLeaf(s'.tree, s'.place, s.tree, s.place, w, x, s.shown[x]);
      }
    }
    MakeSound(s', root, maxDepth);
    ParentPlanted(s.tree, parent, w, background);
    forall x | x in s.tree && AllCoherent(s) ensures Coherent(s', x) {
      assert Coherent(s, x);
      CoherentApart(s, s', x);
    }
    NewCoherent(s', w);
    if AllCoherent(s) { CoherentBut(s', w); }
  }

  /** The bound for the depth of the tree, once `parent` has a child. */
  function DepthWith(t: Tree, maxDepth: nat, parent: Window): nat
    requires parent in t
  {
    if maxDepth < t[parent].depth + 1 then t[parent].depth + 1 else maxDepth
  }

  lemma {:induction false} CreateReady(s: State, root: Window, background: Window, maxDepth: nat, parent: Window, w: Window, place: Place, blank: Picture)
    requires Fine(s, root, background, maxDepth) && parent in s.tree && w !in s.tree && PlaceOK(place) && !place.isOpen
    ensures var more := DepthWith(s.tree, maxDepth, parent);
            && s.Domains() && TreeOK(s.tree, root, more) && Shape(s.tree, more) && parent != w
            && Fine(Created(s, parent, w, place, blank), root, background, more)
            && TreeOK(Planted(s.tree, parent, w), root, more) && w in Planted(s.tree, parent, w)
            && (AllCoherent(s) ==> AllCoherent(Created(s, parent, w, place, blank)))
            && Created(s, parent, w, place, blank) ==
                 State(Planted(s.tree, parent, w), s.place[w := place], s.shown[w := Shown([], false)],
                       s.store[w := Store(blank, false, Rect(0, 0, 0, 0))], s.content[w := blank], s.screen)
  {
    hide *;
    var more := DepthWith(s.tree, maxDepth, parent);
    assert maxDepth <= more && s.tree[parent].depth < more by { DepthEnough(s.tree, maxDepth, parent); }
    DeeperFine(s, root, background, maxDepth, more);
    FineParts(s, root, background, more);
    CreateKeeps(s, root, background, more, parent, w, place, blank);
    FineParts(Created(s, parent, w, place, blank), root, background, more);
    CreatedIs(s, parent, w, place, blank);
    PlantedKeys(s.tree, parent, w);
  }

  lemma {:induction false} DepthEnough(t: Tree, maxDepth: nat, parent: Window)
    requires parent in t
    ensures maxDepth <= DepthWith(t, maxDepth, parent) && t[parent].depth < DepthWith(t, maxDepth, parent)
  {
  }

  lemma {:induction false} NewCoherent(s: State, w: Window)
    requires s.Domains() && w in s.tree && !s.place[w].isOpen && !s.store[w].isDirty && s.store[w].bitmap == s.content[w]
    ensures Coherent(s, w)
  {
  }

  /** Coherence of a window depends on its own fields and the screen only. */
  lemma {:induction false} CoherentApart(s: State, t: State, x: Window)
    requires s.Domains() && t.Domains() && x in s.tree && x in t.tree && SameAt(s, t, x) && s.content[x] == t.content[x] && s.screen == t.screen
    ensures Coherent(s, x) <==> Coherent(t, x)
  {
    assert forall p :: BitmapAt(t, x, p) == BitmapAt(s, x, p) && ContentAt(t, x, p) == ContentAt(s, x, p);
  }

  lemma {:induction false} PlacesAdded(t: Tree, pl: Places, t': Tree, w: Window, place: Place)
    requires PlacesOK(t, pl) && t'.Keys == t.Keys + {w} && PlaceOK(place)
    ensures PlacesOK(t', pl[w := place])
  {
    var pl' := pl[w := place];
    forall x | x in pl' ensures PlaceOK(pl'[x]) { if x != w { assert PlaceOK(pl[x]); } }
  }

  lemma {:induction false} ParentPlanted(t: Tree, parent: Window, w: Window, x: Window)
    requires parent in t && x in t && x != w
    ensures Planted(t, parent, w)[x].parent == t[x].parent
  {
  }

  // ----- Deleting one window -----

  ghost function Deleted(s: State, n: Window): (s': State)
    requires s.Domains() && n in s.tree && s.tree[n].parent != null && s.tree[n].parent in s.tree
    ensures s'.Domains() && s'.tree == WithoutLeaf(s.tree, n) && s'.tree.Keys == s.tree.Keys - {n}
  {
    State(WithoutLeaf(s.tree, n), s.place - {n}, s.shown - {n}, s.store - {n}, s.content - {n}, s.screen)
  }

  lemma {:induction false} DeleteKeeps(s: State, root: Window, background: Window, maxDepth: nat, n: Window)
    requires Fine(s, root, background, maxDepth) && n in s.tree && n != root && n != background && s.tree[n].kids == [] && !AllOpen(s.tree, s.place, n)
    ensures s.tree[n].parent != null && s.tree[n].parent in s.tree
    ensures var s' := Deleted(s, n);
            Fine(s', root, background, maxDepth) && (AllCoherent(s) ==> AllCoherent(s'))
  {
    hide Sound, TreeOK, Shape, PlacesOK, AllShownOK, Coherent, ShownOK, HiddenLeaf, AllOpen, WithoutLeaf;
    FineParts(s, root, background, maxDepth);
    LeafRemoved(s.tree, maxDepth, root, s.place, n);
    var s' := Deleted(s, n);
    PlacesDropped(s.tree, s.place, s'.tree, n);
    forall x | x in s'.tree ensures ShownOK(s'.tree, s'.place, x, s'.shown[x]) {
      SoundAt(s, root, maxDepth, x);
      ShownWithoutLeaf(s.tree, s.place, s'.tree, s'.place, n, x, s.shown[x]);
    }
    MakeSound(s', root, maxDepth);
    LeafGoneParent(s.tree, s'.tree, n, background);
    if AllCoherent(s) {
      forall x | x in s'.tree ensures Coherent(s', x) {
        assert Coherent(s, x);
        CoherentApart(s, s', x);
      }
    }
  }

  lemma {:induction false} LeafGoneParent(t: Tree, t': Tree, n: Window, x: Window)
    requires n in t && t[n].parent != null && t[n].parent in t && t' == WithoutLeaf(t, n) && x in t && x != n
    ensures x in t' && t'[x].parent == t[x].parent && t'[x].depth == t[x].depth
  {
  }

  lemma {:induction false} PlacesDropped(t: Tree, pl: Places, t': Tree, n: Window)
    requires PlacesOK(t, pl) && t'.Keys == t.Keys - {n}
    ensures PlacesOK(t', pl - {n})
  {
    forall x | x in pl - {n} ensures PlaceOK((pl - {n})[x]) { assert PlaceOK(pl[x]); }
  }

  lemma {:induction false} DeeperFine(s: State, root: Window, background: Window, maxDepth: nat, more: nat)
    requires Fine(s, root, background, maxDepth) && maxDepth <= more
    ensures Fine(s, root, background, more)
  {
    DeeperOK(s.tree, maxDepth, root, more);
  }

  // ----- Deleting a subtree during its own traversal -----

  /** Every window from `w` up to `top` is the first child of its parent: those to its left
      have been deleted already. */
  ghost predicate FirstPath(t: Tree, top: Window, w: Window)
    decreases if w in t then t[w].depth else 0
  {
    w in t && (w == top || (HasParent(t, w) && First(t[t[w].parent].kids) == w && FirstPath(t, top, t[w].parent)))
  }

  lemma {:induction false} PathAbove(t: Tree, top: Window, w: Window)
    requires FirstPath(t, top, w)
    ensures Above(t, top, w)
    decreases t[w].depth
  {
    if w != top { PathAbove(t, top, t[w].parent); }
  }

  /** Going down. */
  lemma {:induction false} PathDown(t: Tree, maxDepth: nat, top: Window, w: Window)
    requires Shape(t, maxDepth) && FirstPath(t, top, w) && t[w].childs != null
    ensures t[w].childs in t && FirstPath(t, top, t[w].childs) && t[w].depth < t[t[w].childs].depth <= maxDepth
  {
    KidsAt(t, maxDepth, w);
    KidHasParent(t, maxDepth, w, t[w].kids[0]);
    DepthBound(t, maxDepth, t[w].kids[0]);
  }

  /** The path above a deleted leaf stays. */
  lemma {:induction false} PathKept(t: Tree, maxDepth: nat, root: Window, top: Window, n: Window, w: Window)
    requires TreeOK(t, root, maxDepth) && n in t && n != root && t[n].kids == [] && FirstPath(t, top, n) && n != top && FirstPath(t, top, w) && w != n
    ensures t[n].parent != null && t[n].parent in t && FirstPath(WithoutLeaf(t, n), top, w)
    decreases t[w].depth
  {
    ParentAt(t, maxDepth, root, n);
    LeafGoneParent(t, WithoutLeaf(t, n), n, w);
    if w != top {
      var a := t[w].parent;
      ParentAt(t, maxDepth, root, w);
      assert a != n;
      PathKept(t, maxDepth, root, top, n, a);
      LeafGoneParent(t, WithoutLeaf(t, n), n, a);
      assert a != t[n].parent;
    }
  }

  /** Where the loop goes after deleting the leaf `n`: to the next sibling, now the first one,
      or back to the parent, now without children. */
  lemma {:induction false} PathOn(t: Tree, maxDepth: nat, root: Window, top: Window, n: Window)
    requires TreeOK(t, root, maxDepth) && n != root && FirstPath(t, top, n) && n != top && t[n].kids == []
    ensures t[n].parent != null && t[n].parent in t
    ensures var t' := WithoutLeaf(t, n);
            if t[n].next != null then t[n].next in t' && FirstPath(t', top, t[n].next)
            else FirstPath(t', top, t[n].parent) && t'[t[n].parent].kids == []
  {
    ParentAt(t, maxDepth, root, n);
    var q, t' := t[n].parent, WithoutLeaf(t, n);
    var kids := t[q].kids;
    KidsAt(t, maxDepth, q);
    PathKept(t, maxDepth, root, top, n, q);
    ChainAt(t, kids, 0);
    assert Dropped(kids, n) == kids[1..];
    LeafGoneParent(t, t', n, q);
    if t[n].next != null {
      var m := kids[1];
      assert m in kids && kids[0] != kids[1];
      KidHasParent(t, maxDepth, q, m);
      LeafGoneParent(t, t', n, m);
    }
  }

  /** Outside the subtree of `top` nothing has changed; inside, windows have disappeared. */
  ghost predicate OnlyBelow(t0: Tree, t: Tree, top: Window) {
    && (forall x :: x in t0 && !Above(t0, top, x) ==> x in t && t[x] == t0[x])
    && (forall x :: x in t ==> x in t0 && t[x].parent == t0[x].parent && t[x].depth == t0[x].depth)
  }

  lemma {:induction false} BelowSame(t0: Tree, t: Tree, maxDepth: nat, root: Window, top: Window, x: Window)
    requires TreeOK(t, root, maxDepth) && OnlyBelow(t0, t, top) && x in t
    ensures Above(t, top, x) <==> Above(t0, top, x)
    decreases t[x].depth
  {
    if t[x].parent != null {
      ParentAt(t, maxDepth, root, x);
      ParentAt(t, maxDepth, root, x);
      BelowSame(t0, t, maxDepth, root, top, t[x].parent);
    }
  }

  lemma {:induction false} OneLess(t0: Tree, t: Tree, maxDepth: nat, root: Window, top: Window, n: Window)
    requires TreeOK(t, root, maxDepth) && OnlyBelow(t0, t, top) && n in t && n != root && n != top && Above(t, top, n)
    ensures t[n].parent != null && t[n].parent in t
    ensures OnlyBelow(t0, WithoutLeaf(t, n), top)
  {
    ParentAt(t, maxDepth, root, n);
    var q, t' := t[n].parent, WithoutLeaf(t, n);
    KidsAt(t, maxDepth, q);
    BelowSame(t0, t, maxDepth, root, top, n);
    BelowSame(t0, t, maxDepth, root, top, q);
    WithoutDistinct(t[q].kids, n);
    forall x | x in t0 && !Above(t0, top, x) ensures x in t' && t'[x] == t0[x] {
      BelowSame(t0, t, maxDepth, root, top, x);
      if x in t[q].kids { KidHasParent(t, maxDepth, q, x); }
    }
    forall x | x in t' ensures t'[x].parent == t0[x].parent && t'[x].depth == t0[x].depth { LeafGoneParent(t, t', n, x); }
  }

  /** The tree without the subtree of `top`. */
  ghost function WithoutSubtree(t: Tree, top: Window): Tree
    requires top in t && t[top].parent != null && t[top].parent in t
  {
    var left := Relinked(t, t[top].parent, Dropped(t[t[top].parent].kids, top));
    map x | x in left && !Above(t, top, x) :: left[x]
  }

  lemma {:induction false} AllGone(t0: Tree, t: Tree, maxDepth: nat, root: Window, top: Window)
    requires TreeOK(t0, root, maxDepth) && TreeOK(t, root, maxDepth) && OnlyBelow(t0, t, top) && top in t && top in t0 && top != root && t[top].kids == []
    ensures t[top].parent != null && t[top].parent in t && t0[top].parent != null && t0[top].parent in t0
    ensures WithoutLeaf(t, top) == WithoutSubtree(t0, top)
  {
    ParentAt(t, maxDepth, root, top);
    ParentAt(t0, maxDepth, root, top);
    var p := t0[top].parent;
    if Above(t0, top, p) { AboveDepth(t0, top, p); }
    assert t[p] == t0[p];
    forall x | x in t && x != top ensures !Above(t0, top, x) {
      BelowSame(t0, t, maxDepth, root, top, x);
      if Above(t, top, x) { var k := KidTowards(t, maxDepth, top, x); }
    }
    assert Above(t0, top, top);
  }

  /** What is left has been left alone. */
  ghost predicate Untouched(s0: State, s: State) {
    && s0.Domains() && s.Domains() && s.tree.Keys <= s0.tree.Keys && s.screen == s0.screen
    && forall x :: x in s.tree ==> SameAt(s0, s, x) && s.content[x] == s0.content[x]
  }

  lemma {:induction false} UntouchedStep(s0: State, s: State, n: Window)
    requires Untouched(s0, s) && n in s.tree && s.tree[n].parent != null && s.tree[n].parent in s.tree
    ensures Untouched(s0, Deleted(s, n))
  {
    hide WithoutLeaf;
  }

  lemma {:induction false} UntouchedStart(s: State)
    requires s.Domains()
    ensures Untouched(s, s)
  {
  }

  /** One deletion in the course of the traversal. */
  lemma {:induction false} DeleteStep(s0: State, s: State, root: Window, background: Window, maxDepth: nat, top: Window, n: Window)
    requires Fine(s, root, background, maxDepth) && top in s.tree && top != root && top != background && !AllOpen(s.tree, s.place, top)
    requires FirstPath(s.tree, top, n) && s.tree[n].kids == [] && OnlyBelow(s0.tree, s.tree, top) && Untouched(s0, s)
    requires TreeOK(s0.tree, root, maxDepth)
    ensures n in s.tree && n != root && n != background && s.tree[n].parent != null && s.tree[n].parent in s.tree
    ensures var s' := Deleted(s, n);
            && Fine(s', root, background, maxDepth) && (AllCoherent(s) ==> AllCoherent(s')) && Untouched(s0, s')
            && (n != top ==> top in s'.tree && !AllOpen(s'.tree, s'.place, top) && OnlyBelow(s0.tree, s'.tree, top))
            && (n == top ==> top in s0.tree && s0.tree[top].parent != null && s0.tree[top].parent in s0.tree
                             && s'.tree == WithoutSubtree(s0.tree, top))
  {
    hide Sound, TreeOK, Shape, AllCoherent, OnlyBelow, Untouched, WithoutLeaf, WithoutSubtree, Deleted;
    FineParts(s, root, background, maxDepth);
    PathAbove(s.tree, top, n);
    RootNotBelow(s.tree, maxDepth, root, background, top, n);
    ClosedBelow(s.tree, s.place, top, n);
    DeleteKeeps(s, root, background, maxDepth, n);
    UntouchedStep(s0, s, n);
    if n != top {
      OneLess(s0.tree, s.tree, maxDepth, root, top, n);
      StillClosed(s, maxDepth, root, n, top);
    } else {
      TopKept(s0, s, top);
      AllGone(s0.tree, s.tree, maxDepth, root, top);
    }
  }

  lemma {:induction false} TopKept(s0: State, s: State, top: Window)
    requires Untouched(s0, s) && top in s.tree
    ensures top in s0.tree
  {
  }

  lemma {:induction false} RootNotBelow(t: Tree, maxDepth: nat, root: Window, background: Window, top: Window, n: Window)
    requires TreeOK(t, root, maxDepth) && background in t && t[background].parent == root && top in t && top != root && top != background && Above(t, top, n)
    ensures n in t && n != root && n != background
  {
    RootOutside(t, maxDepth, root, background, top);
  }

  lemma {:induction false} StillClosed(s: State, maxDepth: nat, root: Window, n: Window, top: Window)
    requires s.Domains() && TreeOK(s.tree, root, maxDepth) && n in s.tree && n != root && s.tree[n].kids == [] && top in s.tree && top != n
    requires !AllOpen(s.tree, s.place, n) && !AllOpen(s.tree, s.place, top)
    ensures s.tree[n].parent != null && s.tree[n].parent in s.tree
    ensures var s' := Deleted(s, n); top in s'.tree && !AllOpen(s'.tree, s'.place, top)
  {
    LeafRemoved(s.tree, maxDepth, root, s.place, n);
    InWithoutLeaf(s.tree, s.place, WithoutLeaf(s.tree, n), s.place - {n}, n, top, Pixel(0, 0));
  }

  // ----- Facts for the methods -----

  lemma {:induction false} CreatedIs(s: State, parent: Window, w: Window, place: Place, blank: Picture)
    requires s.Domains() && parent in s.tree
    ensures Created(s, parent, w, place, blank) ==
            State(Planted(s.tree, parent, w), s.place[w := place], s.shown[w := Shown([], false)],
                  s.store[w := Store(blank, false, Rect(0, 0, 0, 0))], s.content[w := blank], s.screen)
  {
  }

  lemma {:induction false} PlantedKeys(t: Tree, parent: Window, w: Window)
    requires parent in t
    ensures Planted(t, parent, w).Keys == t.Keys + {w}
  {
  }

  lemma {:induction false} FirstIndex(kids: seq<Window>, w: Window)
    ensures kids[..0] + [w] + kids[0..] == [w] + kids
  {
  }

  lemma {:induction false} WithoutIs(t: Tree, n: Window)
    requires n in t && t[n].parent != null && t[n].parent in t
    ensures WithoutLeaf(t, n) == Relinked(t, t[n].parent, Dropped(t[t[n].parent].kids, n)) - {n}
  {
  }

  lemma {:induction false} LinksDropped(links: map<Window, Links>, t: Tree, n: Window)
    requires LinksAre(links, t)
    ensures LinksAre(links - {n}, t - {n})
  {
  }

  lemma {:induction false} DeletedIs(s: State, n: Window)
    requires s.Domains() && n in s.tree && s.tree[n].parent != null && s.tree[n].parent in s.tree
    ensures Deleted(s, n) == State(WithoutLeaf(s.tree, n), s.place - {n}, s.shown - {n}, s.store - {n}, s.content - {n}, s.screen)
    ensures WithoutLeaf(s.tree, n).Keys == s.tree.Keys - {n}
  {
  }

  /** The deleting loop stands at a window of the shrinking subtree of `top`. */
  ghost predicate DeletingAt(t: Tree, pl: Places, t0: Tree, top: Window, at: Stand) {
    && at.w != null && at.w in t && top in t && !AllOpen(t, pl, top)
    && FirstPath(t, top, at.w) && (at.visited ==> t[at.w].kids == []) && OnlyBelow(t0, t, top)
  }

  lemma {:induction false} DeletingHas(t: Tree, pl: Places, t0: Tree, top: Window, at: Stand)
    requires DeletingAt(t, pl, t0, top, at)
    ensures at.w != null && at.w in t && top in t && !AllOpen(t, pl, top)
    ensures FirstPath(t, top, at.w) && (at.visited ==> t[at.w].kids == []) && OnlyBelow(t0, t, top)
  {
  }

  lemma {:induction false} DeletingDown(t: Tree, pl: Places, t0: Tree, top: Window, at: Stand, next: Stand)
    requires DeletingAt(t, pl, t0, top, at) && next.w != null && next.w in t && FirstPath(t, top, next.w) && !next.visited
    ensures DeletingAt(t, pl, t0, top, next)
  {
  }

  lemma {:induction false} DeletingOn(t: Tree, pl: Places, t0: Tree, top: Window, next: Stand)
    requires next.w != null && next.w in t && top in t && !AllOpen(t, pl, top)
    requires FirstPath(t, top, next.w) && (next.visited ==> t[next.w].kids == []) && OnlyBelow(t0, t, top)
    ensures DeletingAt(t, pl, t0, top, next)
  {
  }

  lemma {:induction false} DeleteStart(s: State, top: Window)
    requires s.Domains() && top in s.tree && !AllOpen(s.tree, s.place, top)
    ensures DeletingAt(s.tree, s.place, s.tree, top, Stand(top, false)) && Untouched(s, s)
  {
    UntouchedStart(s);
  }

  lemma {:induction false} LeafHere(t: Tree, maxDepth: nat, w: Window, visited: bool)
    requires Shape(t, maxDepth) && w in t && (visited ==> t[w].kids == []) && (visited || t[w].childs == null)
    ensures t[w].kids == []
  {
    assert KidsOK(t, w, maxDepth);
  }

  lemma {:induction false} KeysFewer(t: Tree, n: Window, t': Tree)
    requires n in t && t'.Keys == t.Keys - {n}
    ensures |t'| < |t|
  {
    assert |t'.Keys| < |t.Keys|;
    assert |t'| == |t'.Keys| && |t| == |t.Keys|;
  }

  lemma {:induction false} DeletedTree(s: State, n: Window)
    requires s.Domains() && n in s.tree && s.tree[n].parent != null && s.tree[n].parent in s.tree
    ensures Deleted(s, n).tree == WithoutLeaf(s.tree, n)
  {
  }

  lemma {:induction false} NotOpen(t: Tree, pl: Places, w: Window)
    requires w in pl && !pl[w].isOpen
    ensures !AllOpen(t, pl, w)
  {
  }

  /** The tree is left without the subtree of `w`. */
  ghost predicate Shorn(t0: Tree, t: Tree, w: Window) {
    w in t0 && t0[w].parent != null && t0[w].parent in t0 && t == WithoutSubtree(t0, w)
  }

  lemma {:induction false} ShornIs(t0: Tree, t: Tree, w: Window)
    ensures Shorn(t0, t, w) <==> w in t0 && t0[w].parent != null && t0[w].parent in t0 && t == WithoutSubtree(t0, w)
  {
    hide WithoutSubtree;
  }

  /** The loop stands at a window, or has removed the whole subtree. */
  ghost predicate DeletingTo(t: Tree, pl: Places, t0: Tree, top: Window, at: Stand) {
    if at.w != null then DeletingAt(t, pl, t0, top, at) else Shorn(t0, t, top)
  }

  lemma {:induction false} DeletingToIs(t: Tree, pl: Places, t0: Tree, top: Window, at: Stand)
    ensures at.w != null ==> (DeletingTo(t, pl, t0, top, at) <==> DeletingAt(t, pl, t0, top, at))
    ensures at.w == null ==> (DeletingTo(t, pl, t0, top, at) <==> Shorn(t0, t, top))
  {
    hide DeletingAt, Shorn;
  }

  /** A window was deleted, or the loop has gone down. */
  ghost predicate Nearer(t0: Tree, t: Tree, maxDepth: nat, at: Stand, next: Stand) {
    |t| < |t0| || (|t| == |t0| && Height(t, maxDepth, next) < Height(t0, maxDepth, at))
  }

  /** How far it is down to the deepest level */
  ghost function Height(t: Tree, maxDepth: nat, at: Stand): nat {
    if at.w != null && at.w in t && t[at.w].depth <= maxDepth then maxDepth + 1 - t[at.w].depth else 0
  }

  lemma {:induction false} NearerIs(t0: Tree, t: Tree, maxDepth: nat, at: Stand, next: Stand)
    ensures Nearer(t0, t, maxDepth, at, next) <==>
              |t| < |t0| || (|t| == |t0| && Height(t, maxDepth, next) < Height(t0, maxDepth, at))
    ensures at.w != null && at.w in t0 && next.w != null && next.w in t && t0[at.w].depth < t[next.w].depth <= maxDepth ==>
              Height(t, maxDepth, next) < Height(t0, maxDepth, at)
  {
  }

  /** The cache after windows have been deleted. */
  ghost function Remembered(c: Window?, t: Tree): Window? {
    if c != null && c in t then c else null
  }

  lemma {:induction false} RememberedIs(c: Window?, t: Tree)
    ensures Remembered(c, t) == if c != null && c in t then c else null
  {
  }

  // ----- Deleting as a whole -----

  /** The state without the subtree of `top`. */
  ghost function Pruned(s: State, top: Window): (s': State)
    requires s.Domains() && top in s.tree && s.tree[top].parent != null && s.tree[top].parent in s.tree
    ensures s'.Domains() && s'.tree == WithoutSubtree(s.tree, top)
  {
    var t := WithoutSubtree(s.tree, top);
    State(t, map x | x in s.place && x in t :: s.place[x], map x | x in s.shown && x in t :: s.shown[x],
          map x | x in s.store && x in t :: s.store[x], map x | x in s.content && x in t :: s.content[x], s.screen)
  }

  lemma {:induction false} UntouchedPruned(s0: State, s: State, top: Window)
    requires Untouched(s0, s) && top in s0.tree && s0.tree[top].parent != null && s0.tree[top].parent in s0.tree
    requires s.tree == WithoutSubtree(s0.tree, top)
    ensures s == Pruned(s0, top)
  {
    hide WithoutSubtree;
  }

  lemma {:induction false} PrunedUntouched(s: State, top: Window)
    requires s.Domains() && top in s.tree && s.tree[top].parent != null && s.tree[top].parent in s.tree
    ensures Untouched(s, Pruned(s, top))
  {
  }

  /** The windows that are left are as coherent as they were. */
  lemma {:induction false} UntouchedCoherent(s0: State, s: State, x: Window)
    requires Untouched(s0, s) && x in s.tree
    ensures x in s0.tree && (Coherent(s0, x) <==> Coherent(s, x))
  {
    CoherentApart(s0, s, x);
  }

  /** One deletion, and where the traversal goes on. */
  lemma {:induction false} PruneStep(s0: State, s: State, root: Window, background: Window, maxDepth: nat, top: Window, n: Window)
    requires Fine(s, root, background, maxDepth) && Untouched(s0, s) && TreeOK(s0.tree, root, maxDepth) && s.Domains() && n in s.tree
    requires DeletingAt(s.tree, s.place, s0.tree, top, Stand(n, s.tree[n].childs != null)) && top != root && top != background
    ensures s.tree[n].parent != null && s.tree[n].parent in s.tree
    ensures var s' := Deleted(s, n);
            && Fine(s', root, background, maxDepth) && Untouched(s0, s') && |s'.tree| < |s.tree|
            && (n != top ==> DeletingAt(s'.tree, s'.place, s0.tree, top, Onwards(s.tree, top, n)))
            && (n == top ==> top in s0.tree && s0.tree[top].parent != null && s0.tree[top].parent in s0.tree && s' == Pruned(s0, top))
  {
    hide *;
    FineParts(s, root, background, maxDepth);
    DeletingHas(s.tree, s.place, s0.tree, top, Stand(n, s.tree[n].childs != null));
    LeafHere(s.tree, maxDepth, n, s.tree[n].childs != null);
    DeleteStep(s0, s, root, background, maxDepth, top, n);
    DeletedIs(s, n);
    KeysFewer(s.tree, n, Deleted(s, n).tree);
    if n == top {
      UntouchedPruned(s0, Deleted(s, n), top);
    } else {
      PathOn(s.tree, maxDepth, root, top, n);
      OnwardsIs(s.tree, top, n);
      DeletingOn(Deleted(s, n).tree, Deleted(s, n).place, s0.tree, top, Onwards(s.tree, top, n));
    }
  }

  lemma {:induction false} OnwardsIs(t: Tree, top: Window, w: Window)
    requires w in t && w != top
    ensures Onwards(t, top, w) == if t[w].next != null then Stand(t[w].next, false) else Stand(t[w].parent, true)
  {
  }

  /** The deleting traversal, from wherever it stands to its end. */
  lemma {:induction false} PruneFrom(s0: State, s: State, root: Window, background: Window, maxDepth: nat, top: Window, at: Stand)
    requires Fine(s, root, background, maxDepth) && Untouched(s0, s) && TreeOK(s0.tree, root, maxDepth)
    requires DeletingAt(s.tree, s.place, s0.tree, top, at) && top != root && top != background
    ensures top in s0.tree && s0.tree[top].parent != null && s0.tree[top].parent in s0.tree && s0.Domains()
    ensures Fine(Pruned(s0, top), root, background, maxDepth)
    decreases |s.tree|, if at.w != null && at.w in s.tree then maxDepth + 1 - s.tree[at.w].depth else 0
  {
    hide *;
    DeletingHas(s.tree, s.place, s0.tree, top, at);
    FineParts(s, root, background, maxDepth);
    UntouchedDomains(s0, s);
    var w: Window := at.w;
    DepthBound(s.tree, maxDepth, w);
    if !at.visited && s.tree[w].childs != null {
      PathDown(s.tree, maxDepth, top, w);
      var next := Stand(s.tree[w].childs, false);
      DeletingDown(s.tree, s.place, s0.tree, top, at, next);
      PruneFrom(s0, s, root, background, maxDepth, top, next);
    } else {
      LeafHere(s.tree, maxDepth, w, at.visited);
      DeletingOn(s.tree, s.place, s0.tree, top, Stand(w, s.tree[w].childs != null));
      PruneStep(s0, s, root, background, maxDepth, top, w);
      if w != top { PruneFrom(s0, Deleted(s, w), root, background, maxDepth, top, Onwards(s.tree, top, w)); }
    }
  }

  lemma {:induction false} UntouchedDomains(s0: State, s: State)
    requires Untouched(s0, s)
    ensures s0.Domains() && s.Domains()
  {
  }

  /** Deleting a subtree that is not shown keeps the invariant and every other window. */
  lemma {:induction false} PruneKeeps(s: State, root: Window, background: Window, maxDepth: nat, top: Window)
    requires Fine(s, root, background, maxDepth) && top in s.tree && top != root && top != background && !AllOpen(s.tree, s.place, top)
    ensures s.Domains() && s.tree[top].parent != null && s.tree[top].parent in s.tree
    ensures var s' := Pruned(s, top);
            Fine(s', root, background, maxDepth) && forall x :: x in s'.tree ==> x in s.tree && (Coherent(s, x) <==> Coherent(s', x))
  {
    hide *;
    FineParts(s, root, background, maxDepth);
    DeleteStart(s, top);
    PruneFrom(s, s, root, background, maxDepth, top, Stand(top, false));
    PrunedUntouched(s, top);
    forall x | x in Pruned(s, top).tree ensures x in s.tree && (Coherent(s, x) <==> Coherent(Pruned(s, top), x)) {
      UntouchedCoherent(s, Pruned(s, top), x);
    }
  }

  /** The state that window_delete leaves. */
  ghost function DeleteResult(s: State, root: Window, maxDepth: nat, w: Window): State
    requires Usable(s, root, maxDepth, w) && CloseResult(s, root, maxDepth, w).Domains() && CloseResult(s, root, maxDepth, w).tree == s.tree
  {
    Pruned(if AllOpen(s.tree, s.place, w) then CloseResult(s, root, maxDepth, w) else s, w)
  }

  /** window_delete keeps the invariant.  It keeps the backing store of the remaining windows
      coherent exactly when the close that comes first does. */
  lemma {:induction false} DeleteTheorem(s: State, root: Window, background: Window, maxDepth: nat, w: Window)
    requires Fine(s, root, background, maxDepth) && Usable(s, root, maxDepth, w) && w != background
    ensures CloseResult(s, root, maxDepth, w).Domains() && CloseResult(s, root, maxDepth, w).tree == s.tree
    ensures var s' := DeleteResult(s, root, maxDepth, w);
            && Fine(s', root, background, maxDepth) && s'.tree == WithoutSubtree(s.tree, w)
            && (AllCoherent(s) ==> (AllCoherent(s') <==> !(AllOpen(s.tree, s.place, w) && StaleBorder(s, w))))
  {
    hide *;
    UsableTree(s, root, maxDepth, w);
    CloseFrame(s, root, maxDepth, w);
    DeleteIs(s, root, maxDepth, w);
    if AllOpen(s.tree, s.place, w) {
      var s1, up := CloseResult(s, root, maxDepth, w), s.tree[w].parent;
      CloseKeeps(s, root, background, maxDepth, w);
      JustClosed(s, s1, w);
      PruneKeeps(s1, root, background, maxDepth, w);
      UpRemains(s.tree, root, maxDepth, w);
      var s' := Pruned(s1, w);
      if AllCoherent(s) {
        forall v | v in s'.tree && v != up ensures Coherent(s', v) {}
        CoherentBut(s', up);
      }
    } else {
      PruneKeeps(s, root, background, maxDepth, w);
      var s' := Pruned(s, w);
      if AllCoherent(s) {
        forall v | v in s'.tree ensures Coherent(s', v) { CoherentAt(s, v); }
        MakeCoherent(s');
      }
    }
  }

  lemma {:induction false} DeleteIs(s: State, root: Window, maxDepth: nat, w: Window)
    requires Usable(s, root, maxDepth, w) && CloseResult(s, root, maxDepth, w).Domains() && CloseResult(s, root, maxDepth, w).tree == s.tree
    ensures DeleteResult(s, root, maxDepth, w) == Pruned(if AllOpen(s.tree, s.place, w) then CloseResult(s, root, maxDepth, w) else s, w)
  {
    hide CloseResult, Pruned, AllOpen;
  }

  lemma {:induction false} MakeCoherent(s: State)
    requires s.Domains() && forall v :: v in s.tree ==> Coherent(s, v)
    ensures AllCoherent(s)
  {
  }

  lemma {:induction false} JustClosed(s: State, s1: State, w: Window)
    requires w in s.place && s1.place == s.place[w := s.place[w].(isOpen := false)]
    ensures !AllOpen(s1.tree, s1.place, w)
  {
  }

  lemma {:induction false} UpRemains(t: Tree, root: Window, maxDepth: nat, w: Window)
    requires TreeOK(t, root, maxDepth) && w in t && w != root
    ensures t[w].parent != null && t[w].parent in t && t[w].parent in WithoutSubtree(t, w)
  {
    ParentAt(t, maxDepth, root, w);
    if Above(t, w, t[w].parent) { AboveDepth(t, w, t[w].parent); }
  }
}
