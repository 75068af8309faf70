/** windowKillClient (server/window.c:1905-1924): all windows of a client are deleted in the
    course of one traversal of the tree, each with its subtree. */
module Killing {
  import opened WindowTree
  import opened Orders
  import opened Visibility
  import opened Visitors
  import opened Coherence
  import opened Linking
  import opened Restacking
  import opened Phases
  import opened Opening
  import opened Closing
  import opened Rooted
  import opened Lifecycle
  import opened Runs
  import opened Borders
  import opened Effects

  // ----- What is left of the tree -----

  /** The windows outside the subtree keep their place in the tree. */
  lemma {:induction false} FewerAt(t: Tree, maxDepth: nat, root: Window, w: Window, x: Window)
    requires TreeOK(t, root, maxDepth) && w in t && w != root
    ensures t[w].parent != null && t[w].parent in t
    ensures var t' := WithoutSubtree(t, w);
            && (x in t' <==> x in t && !Above(t, w, x))
            && (x in t' ==> t'[x].parent == t[x].parent && t'[x].depth == t[x].depth)
            && (x in t' ==> t'[x].kids == if x == t[w].parent then Dropped(t[x].kids, w) else t[x].kids)
            && (x in t' && x != root ==> HasParent(t, x) && HasParent(t', x) && t[x].parent in t')
  {
    hide Dropped, Shape;
    ParentAt(t, maxDepth, root, w);
    if x in t && x != root {
      NextIn(t, maxDepth, root, x);
      if Above(t, w, t[x].parent) { assert Above(t, w, x); }
    }
  }

  lemma {:induction false} FewerAbove(t: Tree, maxDepth: nat, root: Window, w: Window, v: Window, x: Window)
    requires TreeOK(t, root, maxDepth) && w in t && w != root
    ensures t[w].parent != null && t[w].parent in t
    ensures x in WithoutSubtree(t, w) ==> (Above(t, v, x) <==> Above(WithoutSubtree(t, w), v, x))
    decreases if x in t then t[x].depth else 0
  {
    hide TreeOK, WithoutSubtree;
    FewerAt(t, maxDepth, root, w, x);
    if x in WithoutSubtree(t, w) && x != v {
      if x == root { TreeParts(t, root, maxDepth); } else { FewerAbove(t, maxDepth, root, w, v, t[x].parent); }
    }
  }

  lemma {:induction false} LeftFewer(t: Tree, maxDepth: nat, root: Window, w: Window, x: Window)
    requires TreeOK(t, root, maxDepth) && w in t && w != root
    ensures t[w].parent != null && t[w].parent in t
    ensures var t' := WithoutSubtree(t, w);
            x in t' ==> x in t && forall l :: l in LeftOf(t', x) ==> l in LeftOf(t, x) && l != w
  {
    hide TreeOK, WithoutSubtree, Before, Dropped;
    FewerAt(t, maxDepth, root, w, x);
    if x in WithoutSubtree(t, w) && x != root {
      var p := t[x].parent;
      FewerAt(t, maxDepth, root, w, p);
      TreeParts(t, root, maxDepth);
      KidsAt(t, maxDepth, p);
      BeforeMembers(t[p].kids, x);
      if p == t[w].parent {
        assert x != w by { AboveSelf(t, w); }
        ParentAt(t, maxDepth, root, w);
        ParentAt(t, maxDepth, root, x);
        BeforeWithout(t[p].kids, w, x);
      }
    } else if x == root {
      TreeParts(t, root, maxDepth);
    }
  }

  // ----- What the traversal has behind it -----

  /** None of the windows from `v` downwards is to be killed. */
  ghost predicate Clean(t: Tree, kill: set<Window>, v: Window) {
    forall x :: Above(t, v, x) ==> x !in kill
  }

  ghost predicate AllClean(t: Tree, kill: set<Window>, list: seq<Window>) {
    forall v :: v in list ==> Clean(t, kill, v)
  }

  /** On every level from `w` up to the root, all to the left is clean. */
  ghost predicate PathClean(t: Tree, kill: set<Window>, w: Window)
    decreases if w in t then t[w].depth else 0
  {
    w in t && AllClean(t, kill, LeftOf(t, w)) && (HasParent(t, w) ==> PathClean(t, kill, t[w].parent))
  }

  lemma {:induction false} CleanFewer(t: Tree, maxDepth: nat, root: Window, w: Window, kill: set<Window>, v: Window)
    requires TreeOK(t, root, maxDepth) && w in t && w != root && Clean(t, kill, v)
    ensures t[w].parent != null && t[w].parent in t && Clean(WithoutSubtree(t, w), kill, v)
  {
    hide TreeOK, WithoutSubtree;
    FewerAt(t, maxDepth, root, w, w);
    forall x | Above(WithoutSubtree(t, w), v, x) ensures x !in kill {
      FewerAbove(t, maxDepth, root, w, v, x);
    }
  }

  lemma {:induction false} LeftCleanFewer(t: Tree, maxDepth: nat, root: Window, w: Window, kill: set<Window>, x: Window)
    requires TreeOK(t, root, maxDepth) && w in t && w != root && x in t
    requires forall l :: l in LeftOf(t, x) && l != w ==> Clean(t, kill, l)
    ensures t[w].parent != null && t[w].parent in t
    ensures x in WithoutSubtree(t, w) ==> AllClean(WithoutSubtree(t, w), kill, LeftOf(WithoutSubtree(t, w), x))
  {
    hide TreeOK, WithoutSubtree, Clean, LeftOf;
    LeftFewer(t, maxDepth, root, w, x);
    var t' := WithoutSubtree(t, w);
    if x in t' {
      forall l | l in LeftOf(t', x) ensures Clean(t', kill, l) { CleanFewer(t, maxDepth, root, w, kill, l); }
    }
  }

  lemma {:induction false} PathFewer(t: Tree, maxDepth: nat, root: Window, w: Window, kill: set<Window>, x: Window)
    requires TreeOK(t, root, maxDepth) && w in t && w != root && PathClean(t, kill, x)
    ensures t[w].parent != null && t[w].parent in t
    ensures x in WithoutSubtree(t, w) ==> PathClean(WithoutSubtree(t, w), kill, x)
    decreases t[x].depth
  {
    hide TreeOK, WithoutSubtree, Clean, LeftOf;
    FewerAt(t, maxDepth, root, w, x);
    LeftCleanFewer(t, maxDepth, root, w, kill, x);
    if x == root { TreeParts(t, root, maxDepth); } else if x in WithoutSubtree(t, w) { PathFewer(t, maxDepth, root, w, kill, t[x].parent); }
  }

  /** A window that stays is clean once its children are. */
  lemma {:induction false} CleanHere(t: Tree, maxDepth: nat, kill: set<Window>, w: Window)
    requires Shape(t, maxDepth) && w in t && AllClean(t, kill, t[w].kids) && w !in kill
    ensures Clean(t, kill, w)
  {
    hide Shape;
    forall x | Above(t, w, x) ensures x !in kill {
      if x != w {
        var k := KidTowards(t, maxDepth, w, x);
        assert Clean(t, kill, k);
      }
    }
  }

  /** The siblings to the left of the next one, or of none. */
  lemma {:induction false} LeftOfNext(t: Tree, maxDepth: nat, root: Window, w: Window)
    requires TreeOK(t, root, maxDepth) && w in t && w != root
    ensures HasParent(t, w) && t[w].parent in t && t[t[w].parent].depth < t[w].depth
    ensures t[w].next != null ==> var n := t[w].next;
              n in t && n != w && HasParent(t, n) && t[n].parent == t[w].parent && forall l :: l in LeftOf(t, n) ==> l in LeftOf(t, w) || l == w
    ensures t[w].next == null ==> forall k :: k in t[t[w].parent].kids ==> k in LeftOf(t, w) || k == w
  {
    hide TreeOK, Before, After, Shape;
    NextIn(t, maxDepth, root, w);
    TreeParts(t, root, maxDepth);
    var p := t[w].parent;
    ParentAt(t, maxDepth, root, w);
    KidsAt(t, maxDepth, p);
    var kids := t[p].kids;
    var i :| 0 <= i < |kids| && kids[i] == w;
    SplitAt(kids, i);
    ChainAt(t, kids, i);
    if i + 1 < |kids| {
      SplitAt(kids, i + 1);
      KidHasParent(t, maxDepth, p, kids[i + 1]);
    }
  }

  // ----- Where the traversal stands -----

  /** The list loop comes to `next`, a child of the root, or has come to its end. */
  ghost predicate KillNext(t: Tree, kill: set<Window>, root: Window, next: Window?) {
    if next == null then root in t && AllClean(t, kill, t[root].kids)
    else next in t && t[next].parent == root && PathClean(t, kill, next)
  }

  /** The loop over the subtree of `top` stands at `at`; `next` is the window to the right of
      `top`, which has been looked up before. */
  ghost predicate KillAt(t: Tree, kill: set<Window>, root: Window, top: Window, at: Stand, next: Window?) {
    if at.w == null then KillNext(t, kill, root, next)
    else
      && at.w in t && top in t && t[top].parent == root && t[top].next == next && Above(t, top, at.w)
      && PathClean(t, kill, at.w) && (at.visited ==> AllClean(t, kill, t[at.w].kids))
  }

  lemma {:induction false} KillBegin(t: Tree, kill: set<Window>, maxDepth: nat, root: Window)
    requires TreeOK(t, root, maxDepth)
    ensures root in t && KillNext(t, kill, root, t[root].childs)
  {
    hide Shape;
    TreeParts(t, root, maxDepth);
    KidsAt(t, maxDepth, root);
    if t[root].kids != [] {
      KidHasParent(t, maxDepth, root, t[root].kids[0]);
      assert PathClean(t, kill, root);
    }
  }

  lemma {:induction false} KillStart(t: Tree, kill: set<Window>, root: Window, top: Window)
    requires KillNext(t, kill, root, top)
    ensures top in t && t[top].parent == root && KillAt(t, kill, root, top, Stand(top, false), t[top].next)
  {
    hide PathClean;
  }

  lemma {:induction false} KillDown(t: Tree, kill: set<Window>, maxDepth: nat, root: Window, top: Window, at: Stand, next: Window?)
    requires TreeOK(t, root, maxDepth) && KillAt(t, kill, root, top, at, next) && at.w != null && at.w in t && t[at.w].childs != null
    ensures KillAt(t, kill, root, top, Stand(t[at.w].childs, false), next)
  {
    hide TreeOK, Shape;
    TreeParts(t, root, maxDepth);
    KidsAt(t, maxDepth, at.w);
    FirstKid(t, maxDepth, top, at.w);
  }

  /** The visited window stays. */
  lemma {:induction false} KillKept(t: Tree, kill: set<Window>, maxDepth: nat, root: Window, top: Window, at: Stand, next: Window?)
    requires TreeOK(t, root, maxDepth) && KillAt(t, kill, root, top, at, next) && at.w != null && at.w in t && at.w != root && at.w !in kill
    requires at.visited || t[at.w].childs == null
    ensures KillAt(t, kill, root, top, Onwards(t, top, at.w), next)
  {
    hide TreeOK, Shape, LeftOf, Clean;
    TreeParts(t, root, maxDepth);
    KidsAt(t, maxDepth, at.w);
    CleanHere(t, maxDepth, kill, at.w);
    LeftOfNext(t, maxDepth, root, at.w);
    if at.w != top { ParentInside(t, maxDepth, root, top, at.w); }
  }

  /** Unless it is `top` itself, the next sibling and the parent lie below `top`, too. */
  lemma {:induction false} ParentInside(t: Tree, maxDepth: nat, root: Window, top: Window, w: Window)
    requires TreeOK(t, root, maxDepth) && w in t && w != top && Above(t, top, w)
    ensures w != root && t[w].parent != null && t[w].parent in t && Above(t, top, t[w].parent)
    ensures t[w].next != null ==> t[w].next in t && Above(t, top, t[w].next) && t[w].next != top
  {
    hide TreeOK, Shape, LeftOf;
    if w == root { TreeParts(t, root, maxDepth); }
    LeftOfNext(t, maxDepth, root, w);
    AboveDepth(t, top, t[w].parent);
    if t[w].next != null { SameLevel(t, maxDepth, root, w, t[w].next); }
  }

  lemma {:induction false} SameLevel(t: Tree, maxDepth: nat, root: Window, a: Window, b: Window)
    requires TreeOK(t, root, maxDepth) && a in t && b in t && a != root && t[a].parent == t[b].parent
    ensures t[a].depth == t[b].depth
  {
    assert ParentOK(t, a) && ParentOK(t, b);
    assert KidsOK(t, t[a].parent, maxDepth);
  }

  /** The visited window is gone, with its subtree. */
  lemma {:induction false} KillGone(t: Tree, kill: set<Window>, maxDepth: nat, root: Window, top: Window, at: Stand, next: Window?)
    requires TreeOK(t, root, maxDepth) && KillAt(t, kill, root, top, at, next) && at.w != null && at.w in t && at.w != root && top != root
    ensures t[at.w].parent != null && t[at.w].parent in t
    ensures KillAt(WithoutSubtree(t, at.w), kill, root, top, Onwards(t, top, at.w), next)
  {
    hide TreeOK, Shape, LeftOf, Clean, WithoutSubtree, PathClean, AllClean;
    var w: Window := at.w;
    LeftOfNext(t, maxDepth, root, w);
    PathParts(t, kill, w);
    GoneParent(t, maxDepth, root, w, kill);
    if t[w].next != null { GoneNext(t, maxDepth, root, w, kill); }
    if w != top {
      ParentInside(t, maxDepth, root, top, w);
      TopStays(t, maxDepth, root, top, w);
    }
  }

  lemma {:induction false} PathParts(t: Tree, kill: set<Window>, w: Window)
    requires PathClean(t, kill, w)
    ensures w in t && AllClean(t, kill, LeftOf(t, w)) && (HasParent(t, w) ==> PathClean(t, kill, t[w].parent))
  {
  }

  /** The parent: what is left of its children when there was nothing to the right. */
  lemma {:induction false} GoneParent(t: Tree, maxDepth: nat, root: Window, w: Window, kill: set<Window>)
    requires TreeOK(t, root, maxDepth) && w in t && w != root && PathClean(t, kill, w)
    ensures t[w].parent != null && t[w].parent in t
    ensures var t', p := WithoutSubtree(t, w), t[w].parent;
            p in t' && PathClean(t', kill, p) && (t[w].next == null ==> AllClean(t', kill, t'[p].kids))
  {
    hide TreeOK, Shape, LeftOf, Clean, WithoutSubtree, Dropped;
    LeftOfNext(t, maxDepth, root, w);
    var t', p := WithoutSubtree(t, w), t[w].parent;
    if Above(t, w, p) { AboveDepth(t, w, p); }
    FewerAt(t, maxDepth, root, w, p);
    PathFewer(t, maxDepth, root, w, kill, p);
    TreeParts(t, root, maxDepth);
    KidsAt(t, maxDepth, p);
    ParentAt(t, maxDepth, root, w);
    DroppedMembers(t[p].kids, w);
    if t[w].next == null {
      forall k | k in t'[p].kids ensures Clean(t', kill, k) { CleanFewer(t, maxDepth, root, w, kill, k); }
    }
  }

  lemma {:induction false} DroppedMembers(s: seq<Window>, w: Window)
    requires Distinct(s) && w in s
    ensures forall k :: k in Dropped(s, w) ==> k in s && k != w
  {
    hide Before, After;
    SplitAround(s, w);
  }

  lemma {:induction false} GoneNext(t: Tree, maxDepth: nat, root: Window, w: Window, kill: set<Window>)
    requires TreeOK(t, root, maxDepth) && w in t && w != root && PathClean(t, kill, w) && t[w].next != null
    ensures t[w].parent != null && t[w].parent in t
    ensures var t', n := WithoutSubtree(t, w), t[w].next; n in t' && t'[n].parent == t[w].parent && PathClean(t', kill, n)
  {
    hide TreeOK, Shape, LeftOf, Clean, WithoutSubtree;
    LeftOfNext(t, maxDepth, root, w);
    var t', n := WithoutSubtree(t, w), t[w].next;
    SameLevel(t, maxDepth, root, w, n);
    if Above(t, w, n) { AboveDepth(t, w, n); }
    FewerAt(t, maxDepth, root, w, n);
    LeftCleanFewer(t, maxDepth, root, w, kill, n);
    GoneParent(t, maxDepth, root, w, kill);
  }

  /** The window the loop started from stays where it is. */
  lemma {:induction false} TopStays(t: Tree, maxDepth: nat, root: Window, top: Window, w: Window)
    requires TreeOK(t, root, maxDepth) && w in t && w != root && top in t && top != root && t[top].parent == root && Above(t, top, w) && w != top
    ensures t[w].parent != null && t[w].parent in t
    ensures var t' := WithoutSubtree(t, w);
            && top in t' && t'[top].parent == root && t'[top].next == t[top].next
            && Above(t', top, t[w].parent) && (t[w].next != null ==> Above(t', top, t[w].next))
  {
    hide TreeOK, Shape, LeftOf, WithoutSubtree;
    LeftOfNext(t, maxDepth, root, w);
    ParentInside(t, maxDepth, root, top, w);
    var t', p := WithoutSubtree(t, w), t[w].parent;
    AboveDepth(t, top, w);
    if Above(t, w, top) { AboveDepth(t, w, top); }
    FewerAt(t, maxDepth, root, w, top);
    if Above(t, w, p) { AboveDepth(t, w, p); }
    FewerAt(t, maxDepth, root, w, p);
    FewerAbove(t, maxDepth, root, w, top, p);
    if t[w].next != null {
      SameLevel(t, maxDepth, root, w, t[w].next);
      if Above(t, w, t[w].next) { AboveDepth(t, w, t[w].next); }
      FewerAt(t, maxDepth, root, w, t[w].next);
      FewerAbove(t, maxDepth, root, w, top, t[w].next);
    }
    TreeParts(t, root, maxDepth);
    KidsAt(t, maxDepth, p);
    ParentAt(t, maxDepth, root, w);
    DroppedMembers(t[p].kids, w);
    assert top !in t[p].kids;
    NextFewer(t, w, top);
  }

  lemma {:induction false} NextFewer(t: Tree, w: Window, x: Window)
    requires w in t && t[w].parent != null && t[w].parent in t && x in WithoutSubtree(t, w) && x !in Dropped(t[t[w].parent].kids, w)
    ensures x in t && WithoutSubtree(t, w)[x].next == t[x].next
  {
    hide Dropped;
  }

  /** How much the loop over the subtree has still to visit. */
  ghost function Rank(t: Tree, maxDepth: nat, top: Window, at: Stand): nat {
    if Shape(t, maxDepth) && Inside(t, top, at) then |TodoPost(t, maxDepth, top, at)| else 0
  }

  /** One round brings the loop nearer to its end: the tree has fewer windows, or there is less
      to visit, or the loop has gone down. */
  ghost predicate Falls(t0: Tree, t: Tree, maxDepth: nat, top: Window, at: Stand, on: Stand) {
    || |t| < |t0|
    || (t == t0 && Rank(t, maxDepth, top, on) < Rank(t, maxDepth, top, at))
    || (t == t0 && Rank(t, maxDepth, top, on) == Rank(t, maxDepth, top, at) && Height(t, maxDepth, on) < Height(t, maxDepth, at))
  }

  lemma {:induction false} FallsParts(t0: Tree, t: Tree, maxDepth: nat, top: Window, at: Stand, on: Stand)
    requires Falls(t0, t, maxDepth, top, at, on)
    ensures |t| < |t0| || t == t0
    ensures t == t0 && Rank(t, maxDepth, top, on) >= Rank(t, maxDepth, top, at) ==>
              Rank(t, maxDepth, top, on) == Rank(t, maxDepth, top, at) && Height(t, maxDepth, on) < Height(t, maxDepth, at)
  {
    hide Rank;
  }

  lemma {:induction false} FewerFalls(t: Tree, maxDepth: nat, top: Window, at: Stand, on: Stand, w: Window)
    requires w in t && t[w].parent != null && t[w].parent in t
    ensures Falls(t, WithoutSubtree(t, w), maxDepth, top, at, on)
  {
    hide Rank, Height, WithoutSubtree;
    SubtreeSmaller(t, w);
  }

  lemma {:induction false} RankFalls(t: Tree, kill: set<Window>, maxDepth: nat, root: Window, top: Window, at: Stand, next: Window?)
    requires TreeOK(t, root, maxDepth) && KillAt(t, kill, root, top, at, next) && at.w != null && at.w in t
    ensures Falls(t, t, maxDepth, top, at, NextPost(t, top, at))
  {
    hide Shape, PathClean, AllClean, TodoPost, Onwards;
    TreeParts(t, root, maxDepth);
    NextPostTodo(t, maxDepth, root, top, at);
    DepthBound(t, maxDepth, at.w);
    if !at.visited && t[at.w].childs != null { FirstKidIn(t, maxDepth, at.w); }
  }

  lemma {:induction false} FirstKidIn(t: Tree, maxDepth: nat, w: Window)
    requires Shape(t, maxDepth) && w in t && t[w].childs != null
    ensures t[w].childs in t
  {
    KidsAt(t, maxDepth, w);
  }

  lemma {:induction false} KillAtParts(t: Tree, kill: set<Window>, maxDepth: nat, root: Window, top: Window, at: Stand, next: Window?)
    requires TreeOK(t, root, maxDepth) && KillAt(t, kill, root, top, at, next) && at.w != null
    ensures at.w in t && at.w != root && top in t && t[top].next == next && top != root
  {
    hide Shape, PathClean, AllClean;
    TreeParts(t, root, maxDepth);
  }

  lemma {:induction false} NextPostIs(t: Tree, top: Window, at: Stand)
    requires at.w != null && at.w in t
    ensures NextPost(t, top, at) == if !at.visited && t[at.w].childs != null then Stand(t[at.w].childs, false) else Onwards(t, top, at.w)
  {
    hide Onwards;
  }

  lemma {:induction false} KillDone(t: Tree, kill: set<Window>, root: Window, top: Window, at: Stand, next: Window?)
    requires KillAt(t, kill, root, top, at, next) && at.w == null
    ensures KillNext(t, kill, root, next)
  {
  }

  lemma {:induction false} KillNextParts(t: Tree, kill: set<Window>, maxDepth: nat, root: Window, next: Window)
    requires TreeOK(t, root, maxDepth) && KillNext(t, kill, root, next)
    ensures next in t && next != root
    ensures t[next].next != null ==> t[next].next in t && |RightOf(t, t[next].next)| < |RightOf(t, next)|
  {
    hide Shape, PathClean, AllClean, RightOf;
    TreeParts(t, root, maxDepth);
    SiblingLinks(t, maxDepth, root, next);
    RightLevel(t, maxDepth, next);
  }

  lemma {:induction false} SubtreeSmaller(t: Tree, w: Window)
    requires w in t && t[w].parent != null && t[w].parent in t
    ensures |WithoutSubtree(t, w)| < |t|
  {
    var t' := WithoutSubtree(t, w);
    assert Above(t, w, w) && w !in t'.Keys && t'.Keys <= t.Keys;
    FewerKeys(t'.Keys, t.Keys);
    assert |t'| == |t'.Keys| && |t| == |t.Keys|;
  }

  lemma {:induction false} FewerKeys(a: set<Window>, b: set<Window>)
    requires a < b
    ensures |a| < |b|
  {
    assert |b - a| > 0 && b == a + (b - a);
  }

  // ----- What is gone -----

  /** No window that is to be killed is `x` or one of its ancestors. */
  ghost predicate Spared(t: Tree, kill: set<Window>, x: Window) {
    forall v :: v in kill ==> !Above(t, v, x)
  }

  /** Between the two states only windows to be killed have been deleted, with their subtrees;
      what remains is where it was and has the content it had. */
  ghost predicate Thinned(s0: State, s: State, kill: set<Window>) {
    && s0.Domains() && s.Domains()
    && (forall x :: x in s.tree ==> x in s0.tree && s.tree[x].parent == s0.tree[x].parent && s.tree[x].depth == s0.tree[x].depth)
    && (forall x :: x in s.tree ==> s.place[x] == s0.place[x] && s.content[x] == s0.content[x])
    && (forall x :: x in s0.tree && Spared(s0.tree, kill, x) ==> x in s.tree)
  }

  lemma {:induction false} ThinnedStart(s: State, kill: set<Window>)
    requires s.Domains()
    ensures Thinned(s, s, kill)
  {
  }

  /** What is above a window that remains has remained. */
  lemma {:induction false} AboveThinned(s0: State, s: State, root: Window, maxDepth: nat, kill: set<Window>, v: Window, x: Window)
    requires Thinned(s0, s, kill) && TreeOK(s.tree, root, maxDepth) && x in s.tree
    ensures Above(s0.tree, v, x) <==> Above(s.tree, v, x)
    decreases s.tree[x].depth
  {
    hide TreeOK, Spared;
    if x == root {
      TreeParts(s.tree, root, maxDepth);
    } else {
      NextIn(s.tree, maxDepth, root, x);
      AboveThinned(s0, s, root, maxDepth, kill, v, s.tree[x].parent);
    }
  }

  /** One more deletion */
  lemma {:induction false} ThinnedOn(s0: State, s: State, root: Window, background: Window, maxDepth: nat, kill: set<Window>, w: Window)
    requires Thinned(s0, s, kill) && Fine(s, root, background, maxDepth) && w in s.tree && w in kill && Plain(root, background, w)
    ensures Thinned(s0, DoDelete(s, root, maxDepth, w), kill)
  {
    hide Fine, Usable, Spared, AllCoherent, CloseResult, AllOpen, StaleBorder, WithoutSubtree, DeleteResult, TreeOK;
    FineParts(s, root, background, maxDepth);
    FineUsable(s, root, background, maxDepth, w);
    var s' := DoDelete(s, root, maxDepth, w);
    DeletedAll(s, root, background, maxDepth, w);
    forall x | x in s'.tree ensures x in s.tree && s'.tree[x].parent == s.tree[x].parent && s'.tree[x].depth == s.tree[x].depth {
      FewerAt(s.tree, maxDepth, root, w, x);
    }
    forall x | x in s0.tree && Spared(s0.tree, kill, x) ensures x in s'.tree {
      AboveThinned(s0, s, root, maxDepth, kill, w, x);
      SparedAt(s0.tree, kill, x, w);
      FewerAt(s.tree, maxDepth, root, w, x);
    }
  }

  lemma {:induction false} SparedAt(t: Tree, kill: set<Window>, x: Window, v: Window)
    requires Spared(t, kill, x) && v in kill
    ensures !Above(t, v, x)
  {
  }

  /** At the end the windows that remain are exactly those that no killed window was above. */
  lemma {:induction false} KillEnd(s0: State, s: State, root: Window, maxDepth: nat, kill: set<Window>)
    requires Thinned(s0, s, kill) && TreeOK(s.tree, root, maxDepth) && root !in kill && KillNext(s.tree, kill, root, null)
    ensures forall x :: x in s0.tree ==> (x in s.tree <==> Spared(s0.tree, kill, x))
  {
    hide TreeOK, Shape;
    TreeParts(s.tree, root, maxDepth);
    CleanHere(s.tree, maxDepth, kill, root);
    forall x | x in s.tree ensures Spared(s0.tree, kill, x) {
      forall v | v in kill ensures !Above(s0.tree, v, x) {
        AboveThinned(s0, s, root, maxDepth, kill, v, x);
        if Above(s.tree, v, x) {
          AboveDepth(s.tree, v, x);
          RootAbove(s.tree, maxDepth, root, v);
        }
      }
    }
  }

  // ----- As a run -----

  /** The requests that a traversal stands for, and the worlds they lead through. */
  datatype Log = Log(requests: seq<Request>, trace: seq<World>)

  /** A run of delete requests for some of the given windows, from one world to the other */
  ghost predicate KillRun(log: Log, a: World, b: World, kill: set<Window>, root: Window, background: Window) {
    && IsRun(log.trace, log.requests, root, background) && log.trace[0] == a && log.trace[|log.requests|] == b
    && forall q :: q in log.requests ==> q.ToDelete? && q.w in kill
  }

  lemma {:induction false} KillRunStart(a: World, kill: set<Window>, root: Window, background: Window)
    ensures KillRun(Log([], [a]), a, a, kill, root, background)
  {
    RunStart(a, root, background);
  }

  ghost function Logged(log: Log, w: Window, c: World): Log {
    Log(log.requests + [ToDelete(w)], log.trace + [c])
  }

  lemma {:induction false} KillRunOn(log: Log, a: World, b: World, c: World, kill: set<Window>, w: Window, root: Window, background: Window)
    requires KillRun(log, a, b, kill, root, background) && w in kill && Plain(root, background, w)
    requires c == Deletion(b, root, w)
    ensures KillRun(Logged(log, w, c), a, c, kill, root, background)
  {
    hide Deletion, IsRun;
    var n, more := |log.requests|, log.requests + [ToDelete(w)];
    RunLength(log.trace, log.requests, root, background);
    assert more[..n] == log.requests && more[..n + 1] == more;
    assert Step(b, ToDelete(w), c, root, background);
    RunOn(log.trace, more, n, c, root, background);
  }

  /** What such a run means for the backing store: unless one of the closes on the way meets a
      stale border, all windows stay coherent; without bordered parents none does. */
  lemma {:induction false} KillRunCoherent(log: Log, a: World, b: World, kill: set<Window>, root: Window, background: Window)
    requires KillRun(log, a, b, kill, root, background) && Fine(a.s, root, background, a.maxDepth) && a.s.Domains() && AllCoherent(a.s)
    ensures b.s.Domains() && |log.trace| == |log.requests| + 1
    ensures Unspoiled(log.trace, log.requests, |log.requests|, root, background) ==> AllCoherent(b.s)
    ensures Flat(a.s.tree, a.s.place, background) ==> AllCoherent(b.s) && Flat(b.s.tree, b.s.place, background)
  {
    hide Fine, IsRun, AllCoherent, Flat, Unspoiled;
    var n := |log.requests|;
    RunLength(log.trace, log.requests, root, background);
    RunSafe(log.trace, log.requests, root, background, n);
    FineParts(b.s, root, background, b.maxDepth);
    if Unspoiled(log.trace, log.requests, n, root, background) { RunCoherent(log.trace, log.requests, root, background, n); }
    if Flat(a.s.tree, a.s.place, background) {
      forall i | 0 <= i < n ensures Modest(log.trace[i].s, log.requests[i], root) { assert log.requests[i] in log.requests; }
      FlatRun(log.trace, log.requests, root, background, n);
    }
  }

  lemma {:induction false} KillRunEffects(log: Log, a: World, b: World, kill: set<Window>, root: Window, background: Window)
    requires KillRun(log, a, b, kill, root, background) && Fine(a.s, root, background, a.maxDepth) && CacheOK(a)
    ensures |log.trace| == |log.requests| + 1
    ensures forall i :: 0 <= i < |log.requests| ==> Effect(log.trace[i], log.requests[i], log.trace[i + 1], root, background)
  {
    hide Fine, CacheOK, IsRun, Effect;
    RunEffects(log.trace, log.requests, root, background);
  }

  /** What has been done so far: `log` leads from one world to the other. */
  ghost predicate Killed(a: World, b: World, log: Log, kill: set<Window>, root: Window, background: Window) {
    Thinned(a.s, b.s, kill) && KillRun(log, a, b, kill, root, background)
  }

  lemma {:induction false} KilledStart(a: World, kill: set<Window>, root: Window, background: Window)
    requires a.s.Domains()
    ensures Killed(a, a, Log([], [a]), kill, root, background)
  {
    hide Thinned, KillRun;
    ThinnedStart(a.s, kill);
    KillRunStart(a, kill, root, background);
  }

  lemma {:induction false} KilledOn(a: World, b: World, log: Log, kill: set<Window>, w: Window, root: Window, background: Window)
    requires Killed(a, b, log, kill, root, background) && Fine(b.s, root, background, b.maxDepth)
    requires w in b.s.tree && w in kill && w != root && w != background
    ensures Killed(a, Deletion(b, root, w), Logged(log, w, Deletion(b, root, w)), kill, root, background)
  {
    hide Fine, Thinned, KillRun, Logged, DoDelete;
    ThinnedOn(a.s, b.s, root, background, b.maxDepth, kill, w);
    KillRunOn(log, a, b, Deletion(b, root, w), kill, w, root, background);
  }

  lemma {:induction false} KilledEnd(a: World, b: World, log: Log, kill: set<Window>, root: Window, background: Window)
    requires Killed(a, b, log, kill, root, background) && TreeOK(b.s.tree, root, b.maxDepth)
    requires root !in kill && KillNext(b.s.tree, kill, root, null)
    ensures Thinned(a.s, b.s, kill) && KillRun(log, a, b, kill, root, background) && |log.trace| == |log.requests| + 1
    ensures forall x :: x in a.s.tree ==> (x in b.s.tree <==> Spared(a.s.tree, kill, x))
  {
    hide Thinned, IsRun, KillNext, TreeOK, Spared;
    RunLength(log.trace, log.requests, root, background);
    KillEnd(a.s, b.s, root, b.maxDepth, kill);
  }
}
